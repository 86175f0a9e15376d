/** One stream of packets over several connections: every buffer is dealt out to the connections from where
    the last one stopped, by remainders alone. */
module Multistream {
  import opened Bytes

  type Packet = seq<byte>

  const UINT32: nat := 0x1_0000_0000
  const UINT64: nat := 0x1_0000_0000_0000_0000

  // ---------- The arithmetic of the threads ----------

  /** The number of streams is a positive C int. */
  predicate Streams(s: int) {
    0 < s < 0x8000_0000
  }

  /** The slot of a buffer a thread starts at. */
  function Slot(s: int, start: int, t: int): int {
    if t - start >= 0 then t - start else t + (s - start)
  }

  /** How many packets a thread transfers, in 64-bit unsigned arithmetic. */
  function MaxPackets(elems: nat, s: int, start: int, end: int, t: int): nat
    requires s > 0
  {
    (elems - ((s - start) + end)) % UINT64 / s + (if t - start >= 0 then 1 else 0) + (if t < end then 1 else 0)
  }

  /** The remainder after the receiver's next buffer: the buffer length is a 32-bit unsigned. */
  function NextReceiverEnd(elems: nat, s: int, end: int): nat
    requires s > 0
  {
    (elems - (s - end)) % UINT32 % s
  }

  /** The remainder after the sender's next buffer: what is left to send is counted in 64 bits. */
  function NextSenderEnd(elems: nat, s: int, end: int): nat
    requires s > 0
  {
    (elems - (s - end)) % UINT64 % s
  }

  // ---------- What it means ----------

  /** How many of the first m packets go to stream t when packet k goes to stream k mod s. */
  function Dealt(m: nat, s: int, t: nat): (q: nat)
    requires s > 0
  {
    m / s + if t < m % s then 1 else 0
  }

  lemma SmallIsItself(x: nat, m: nat)
    requires x < m
    ensures x % m == x
  {
  }

  /** Thread t starts at its next packet. */
  lemma SlotIsNext(g: nat, s: int, t: nat)
    requires Streams(s) && t < s
    ensures g + Slot(s, g % s, t) == Dealt(g, s, t) * s + t
  {
    assert (g / s + 1) * s == g / s * s + s;
  }

  lemma WholeRounds(s: int, a: nat, r: nat, b: nat, e: nat, n: nat)
    requires s > 0 && r < s && e < s && s - r <= n && a * s + r + n == b * s + e
    ensures b >= a + 1 && n - ((s - r) + e) == (b - a - 1) * s
  {
    assert (b - a - 1) * s == b * s - a * s - s;
    if b < a + 1 {
      AtLeastOnce(a + 1 - b, s);
      assert false;
    }
  }

  lemma WrappedRounds(x: int, s: int, k: int)
    requires s > 0 && k >= 0 && x == k * s && x < UINT64
    ensures x % UINT64 / s == k
  {
    SmallIsItself(x, UINT64);
    ExactQuotient(k, s);
  }

  /** ... and transfers exactly the packets dealt to its stream, when the buffer reaches the end of a round. */
  lemma CountIsDealt(g: nat, n: nat, s: int, t: nat)
    requires Streams(s) && t < s && s - g % s <= n < UINT64
    ensures MaxPackets(n, s, g % s, (g + n) % s, t) == Dealt(g + n, s, t) - Dealt(g, s, t)
  {
    var a, b := g / s, (g + n) / s;
    WholeRounds(s, a, g % s, b, (g + n) % s, n);
    WrappedRounds(n - ((s - g % s) + (g + n) % s), s, b - a - 1);
  }

  lemma WrappedEnd(g: nat, n: nat, s: int, m: nat)
    requires Streams(s) && s - g % s <= n < m
    ensures (n - (s - g % s)) % m % s == (g + n) % s
  {
    SmallIsItself(n - (s - g % s), m);
    var q, r := (n - (s - g % s)) / s, (n - (s - g % s)) % s;
    assert (q + g / s + 1) * s == q * s + g / s * s + s;
    RemainderUnique(g + n, s, q + g / s + 1, r);
  }

  lemma RoundsOrder(a: nat, r: nat, s: int, t: nat, q: nat)
    requires r < s && t < s
    ensures q < (a + if t < r then 1 else 0) <==> q * s + t < a * s + r
  {
    if q < a {
      AtLeastOnce(a - q, s);
      assert (a - q) * s == a * s - q * s;
    } else if q > a {
      AtLeastOnce(q - a, s);
      assert (q - a) * s == q * s - a * s;
    }
  }

  /** Both updates give the remainder of all packets so far, as long as the buffer ends its first round. */
  lemma NextEnds(g: nat, n: nat, s: int, end: nat)
    requires Streams(s) && end == g % s && s - end <= n
    ensures n < UINT64 ==> NextSenderEnd(n, s, end) == (g + n) % s
    ensures n < UINT32 ==> NextReceiverEnd(n, s, end) == (g + n) % s
  {
    if n < UINT64 {
      WrappedEnd(g, n, s, UINT64);
    }
    if n < UINT32 {
      WrappedEnd(g, n, s, UINT32);
    }
  }

  /** Packet q*s + t is among the first m exactly when fewer than Dealt are before it in its stream. */
  lemma DealtOrder(m: nat, s: int, t: nat, q: nat)
    requires s > 0 && t < s
    ensures q < Dealt(m, s, t) <==> q * s + t < m
  {
    RoundsOrder(m / s, m % s, s, t, q);
  }

  lemma NotNegative(d: int, s: int)
    requires s > 0 && d * s > 0 - s
    ensures d >= 0
  {
    if d < 0 {
      AtLeastOnce(0 - d, s);
    }
  }

  lemma QuotientAtLeast(y: nat, s: int, k: nat)
    requires s > 0 && k * s <= y
    ensures y / s >= k
  {
    assert (y / s - k) * s == y / s * s - k * s;
    NotNegative(y / s - k, s);
  }

  lemma SmallSquare(s: int)
    requires Streams(s)
    ensures (s + 1) * s <= 0x8000_0000 * 0x8000_0000
  {
    assert (0x7fff_ffff - s) * s >= 0 && (0x7fff_ffff - s) * 0x8000_0000 >= 0;
  }

  /** The number of rounds a too small buffer seems to have is that of a buffer of 2^64 packets. */
  lemma TooSmallCount(x: int, s: int)
    requires Streams(s) && 0 - 2 * s < x < 0
    ensures x % UINT64 / s > s
  {
    RemainderUnique(x, UINT64, -1, x + UINT64);
    SmallSquare(s);
    QuotientAtLeast(x + UINT64, s, s + 1);
  }

  /** Exactly when the arithmetic is right: the buffer has to reach the end of the round the last one broke
      off. In a smaller buffer every thread waits for more packets than there are. */
  lemma CountIsRightIff(g: nat, n: nat, s: int, t: nat)
    requires Streams(s) && t < s && n < UINT64
    ensures MaxPackets(n, s, g % s, (g + n) % s, t) == Dealt(g + n, s, t) - Dealt(g, s, t) <==> s - g % s <= n
    ensures n < s - g % s ==> MaxPackets(n, s, g % s, (g + n) % s, t) > n
  {
    if s - g % s <= n {
      CountIsDealt(g, n, s, t);
    } else {
      TooSmallCount(n - ((s - g % s) + (g + n) % s), s);
      DealtAtMost(g, n, s, t);
    }
  }

  lemma DealtAtMost(g: nat, n: nat, s: int, t: nat)
    requires Streams(s) && t < s
    ensures Dealt(g + n, s, t) - Dealt(g, s, t) <= n
  {
    var q := Dealt(g, s, t);
    DealtOrder(g, s, t, q);
    DealtOrder(g + n, s, t, q + n);
    AtLeastN(n, s);
    assert (q + n) * s == q * s + n * s;
  }

  lemma AtLeastN(n: nat, s: int)
    requires s > 0
    ensures n * s >= n
  {
  }

  // ---------- One thread on one buffer ----------

  /** The slot of a thread's j-th packet in a buffer. */
  function SlotAt(s: int, start: int, t: int, j: nat): int {
    Slot(s, start, t) + j * s
  }

  lemma ShiftedBy(d: int, j: int, s: int, x: int, t: int)
    requires x == d * s + t
    ensures x + j * s == (d + j) * s + t
  {
    assert (d + j) * s == d * s + j * s;
  }

  lemma NextPacketAt(g: nat, s: int, t: nat, j: int)
    requires Streams(s) && t < s
    ensures g + (Slot(s, g % s, t) + j * s) == (Dealt(g, s, t) + j) * s + t
  {
    SlotIsNext(g, s, t);
    ShiftedBy(Dealt(g, s, t), j, s, g + Slot(s, g % s, t), t);
  }

  lemma SlotAtInside(g: nat, n: nat, s: int, t: nat, j: nat)
    requires Streams(s) && t < s && j < Dealt(g + n, s, t) - Dealt(g, s, t)
    ensures 0 <= SlotAt(s, g % s, t, j) < n
  {
    var q := Dealt(g, s, t) + j;
    NextPacketAt(g, s, t, j);
    DealtOrder(g + n, s, t, q);
    DealtOrder(g, s, t, q);
  }

  /** The j-th packet a thread transfers is the next one of its stream, and it lies inside the buffer. */
  lemma SlotAtIs(g: nat, n: nat, s: int, t: nat, j: nat)
    requires Streams(s) && t < s && s - g % s <= n < UINT64 && j < MaxPackets(n, s, g % s, (g + n) % s, t)
    ensures 0 <= SlotAt(s, g % s, t, j) < n
    ensures g + SlotAt(s, g % s, t, j) == (Dealt(g, s, t) + j) * s + t
  {
    CountIsDealt(g, n, s, t);
    SlotAtInside(g, n, s, t, j);
    NextPacketAt(g, s, t, j);
  }

  lemma DealtBetween(g: nat, n: nat, s: int, x: nat, t: nat, q: nat)
    requires s > 0 && t < s && x == q * s + t && g <= x < g + n
    ensures Dealt(g, s, t) <= q < Dealt(g + n, s, t)
  {
    DealtOrder(g, s, t, q);
    DealtOrder(g + n, s, t, q);
  }

  lemma SlotOfPacket(g: nat, s: int, t: nat, q: nat)
    requires Streams(s) && t < s && q >= Dealt(g, s, t)
    ensures g + SlotAt(s, g % s, t, q - Dealt(g, s, t)) == q * s + t
  {
    NextPacketAt(g, s, t, q - Dealt(g, s, t));
  }

  /** Every slot of the buffer belongs to the thread of its stream, at the position the packet has there. */
  lemma EverySlotIsTaken(g: nat, n: nat, s: int, i: nat, t: nat, q: nat)
    requires Streams(s) && s - g % s <= n < UINT64 && i < n
    requires t == (g + i) % s && q == (g + i) / s
    ensures 0 <= q - Dealt(g, s, t) < MaxPackets(n, s, g % s, (g + n) % s, t)
    ensures SlotAt(s, g % s, t, q - Dealt(g, s, t)) == i
  {
    DealtBetween(g, n, s, g + i, t, q);
    SlotOfPacket(g, s, t, q);
    CountIsDealt(g, n, s, t);
  }

  lemma SplitUp(x: nat, s: int, q: nat, sum: nat)
    requires s > 0 && q == x / s && sum == q
    ensures x == sum * s + x % s
  {
  }

  lemma TakenAs(g: nat, n: nat, s: int, i: nat, t: nat, d: nat) returns (j: nat)
    requires Streams(s) && s - g % s <= n < UINT64 && i < n && t == (g + i) % s && d == Dealt(g, s, t)
    ensures j < MaxPackets(n, s, g % s, (g + n) % s, t) && SlotAt(s, g % s, t, j) == i
    ensures g + i == (d + j) * s + t
  {
    var q := (g + i) / s;
    EverySlotIsTaken(g, n, s, i, t, q);
    j := q - d;
    SplitUp(g + i, s, q, d + j);
  }

  /** ... and to no other thread. */
  lemma SlotsAreDisjoint(s: int, start: nat, t: nat, j: nat, u: nat, k: nat)
    requires Streams(s) && start < s && t < s && u < s && SlotAt(s, start, t, j) == SlotAt(s, start, u, k)
    ensures t == u && j == k
  {
    var x, y := Slot(s, start, t), Slot(s, start, u);
    RemainderUnique(x + j * s, s, j, x);
    RemainderUnique(y + k * s, s, k, y);
  }
}
