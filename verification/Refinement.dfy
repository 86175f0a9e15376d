/** The receiver keeps what the resequencing window says, byte counters, copies and all; and what the
    hole filler makes of the files it hands over. */
module Refinement {
  import opened Bytes
  import opened Headers
  import opened Options
  import opened Resequencer
  import opened Window
  import opened WindowProofs

  function Arrived(s: Setup, p: Packet): Arrival {
    Arrival(s.number(p), p)
  }

  function Arrivals(s: Setup, packets: seq<Packet>): (arrivals: seq<Arrival>)
    ensures |arrivals| == |packets|
  {
    seq(|packets|, t requires 0 <= t < |packets| => Arrived(s, packets[t]))
  }

  /** A slot that got a packet of the file holds it. A slot that got none still holds what it held when
      the buffer was acquired, or a packet that does not belong there. */
  predicate SlotOk(s: Setup, memory: seq<Packet>, f: File, acquired: seq<Packet>, base: int, k: nat)
    requires k < |memory| && k < |acquired|
  {
    && |memory[k]| == s.packetSize
    && if k in f.slots then memory[k] == f.slots[k].packet
       else memory[k] == acquired[k] || s.number(memory[k]) != base + k
  }

  predicate SlotsOk(s: Setup, memory: seq<Packet>, f: File, acquired: seq<Packet>, base: int, upTo: nat)
    requires upTo <= |memory| && upTo <= |acquired|
  {
    upTo == 0 || (SlotsOk(s, memory, f, acquired, base, upTo - 1) && SlotOk(s, memory, f, acquired, base, upTo - 1))
  }

  /** The memory of file `id` holds the packets accepted into it. */
  predicate HoldsFile(s: Setup, first: int, id: int, memory: seq<Packet>, f: File) {
    id >= 0 && |memory| == s.numElems && SlotsOk(s, memory, f, s.Acquired(id), Base(first, s.numElems, id), s.numElems)
  }

  ghost predicate DeliveredOk(s: Setup, first: int, d: Delivered, h: Handed) {
    d.id == h.id && d.bytes == s.packetSize * h.written && HoldsFile(s, first, h.id, d.contents, h.file)
  }

  ghost predicate OutOk(s: Setup, first: int, out: seq<Delivered>, handed: seq<Handed>) {
    if out == [] || handed == [] then out == [] && handed == [] else
      && OutOk(s, first, out[..|out| - 1], handed[..|handed| - 1])
      && DeliveredOk(s, first, out[|out| - 1], handed[|handed| - 1])
  }

  function First(w: Win): int {
    if w.first.Some? then w.first.value else 0
  }

  ghost predicate SequenceOk(s: Setup, c: Core, w: Win) {
    && c.curId == c.cumul == w.id && c.missing == w.missing
    && if w.first.None? then c == StartCore(s) else
       && c.currentSeq == w.last && c.currentSeq != INT64_MAX
       && c.seqstart == Base(w.first.value, s.numElems, w.id)
       && c.firstPacket.Some? && |c.firstPacket.value| == s.packetSize && s.number(c.firstPacket.value) == w.first.value
  }

  ghost predicate CurOk(s: Setup, c: Core, w: Win) {
    c.inc == s.packetSize * w.cur.count && HoldsFile(s, First(w), w.id, c.cur, w.cur)
  }

  ghost predicate BeforeOk(s: Setup, c: Core, w: Win) {
    if c.before.None? || w.before.None? then c.before.None? && w.before.None? else
      && c.before.value.id == w.id - 1
      && c.before.value.inc == s.packetSize * w.before.value.count
      && HoldsFile(s, First(w), w.id - 1, c.before.value.memory, w.before.value)
  }

  /** The receiver's state stands for the window's state. */
  ghost predicate Matches(s: Setup, c: Core, w: Win) {
    SequenceOk(s, c, w) && CurOk(s, c, w) && BeforeOk(s, c, w) && OutOk(s, First(w), c.out, w.handed)
  }

  // ---------- Memory ----------

  lemma {:induction false} SlotsOkAt(s: Setup, memory: seq<Packet>, f: File, acquired: seq<Packet>, base: int,
                                     upTo: nat,
                                     k: nat)
    requires k < upTo <= |memory| && upTo <= |acquired| && SlotsOk(s, memory, f, acquired, base, upTo)
    ensures SlotOk(s, memory, f, acquired, base, k)
  {
    if k < upTo - 1 {
      SlotsOkAt(s, memory, f, acquired, base, upTo - 1, k);
    }
  }

  lemma {:induction false} SlotsOkIf(s: Setup, memory: seq<Packet>, f: File, acquired: seq<Packet>, base: int,
                                     upTo: nat)
    requires upTo <= |memory| && upTo <= |acquired|
    requires forall k :: 0 <= k < upTo ==> SlotOk(s, memory, f, acquired, base, k)
    ensures SlotsOk(s, memory, f, acquired, base, upTo)
  {
    if upTo > 0 {
      SlotsOkIf(s, memory, f, acquired, base, upTo - 1);
    }
  }

  lemma HoldsAt(s: Setup, first: int, id: int, memory: seq<Packet>, f: File, k: nat)
    requires HoldsFile(s, first, id, memory, f) && k < |memory|
    ensures SlotOk(s, memory, f, s.Acquired(id), Base(first, s.numElems, id), k)
  {
    SlotsOkAt(s, memory, f, s.Acquired(id), Base(first, s.numElems, id), s.numElems, k);
  }

  lemma NewBufferHolds(s: Setup, first: int, id: nat)
    ensures HoldsFile(s, first, id, s.Acquired(id), EMPTY)
  {
    SlotsOkIf(s, s.Acquired(id), EMPTY, s.Acquired(id), Base(first, s.numElems, id), s.numElems);
  }

  /** A staged packet that is not the one its slot waits for does no harm there. */
  lemma StagedIsForeign(s: Setup, first: int, id: int, memory: seq<Packet>, f: File, i: nat, p: Packet)
    requires HoldsFile(s, first, id, memory, f) && i < |memory| && i !in f.slots
    requires |p| == s.packetSize && s.number(p) != Base(first, s.numElems, id) + i
    ensures HoldsFile(s, first, id, memory[i := p], f)
  {
    var memory', acquired, base := memory[i := p], s.Acquired(id), Base(first, s.numElems, id);
    forall k | 0 <= k < s.numElems
      ensures SlotOk(s, memory', f, acquired, base, k)
    {
      HoldsAt(s, first, id, memory, f, k);
    }
    SlotsOkIf(s, memory', f, acquired, base, s.numElems);
  }

  lemma StoredIsHeld(s: Setup, first: int, id: int, memory: seq<Packet>, f: File, i: nat, p: Packet)
    requires HoldsFile(s, first, id, memory, f) && i < |memory| && |p| == s.packetSize
    ensures HoldsFile(s, first, id, memory[i := p], Put(f, i, Arrived(s, p)))
  {
    var memory', acquired, base := memory[i := p], s.Acquired(id), Base(first, s.numElems, id);
    var f' := Put(f, i, Arrived(s, p));
    forall k | 0 <= k < s.numElems
      ensures SlotOk(s, memory', f', acquired, base, k)
    {
      HoldsAt(s, first, id, memory, f, k);
    }
    SlotsOkIf(s, memory', f', acquired, base, s.numElems);
  }

  lemma OutOneMore(s: Setup, first: int, out: seq<Delivered>, handed: seq<Handed>, d: Delivered, h: Handed)
    requires OutOk(s, first, out, handed) && DeliveredOk(s, first, d, h)
    ensures OutOk(s, first, out + [d], handed + [h])
  {
    assert (out + [d])[..|out|] == out;
    assert (handed + [h])[..|handed|] == handed;
  }

  // ---------- The byte counters ----------

  lemma BytesCount(n: nat, size: nat, count: nat)
    requires size > 0
    ensures size * count == n * size <==> count == n
    ensures size * count <= n * size <==> count <= n
  {
    if count < n {
      AtLeastOnce(n - count, size);
    } else if count > n {
      AtLeastOnce(count - n, size);
    }
    assert (n - count) * size == n * size - size * count;
  }

  lemma BytesLeft(n: nat, size: nat, count: nat)
    requires size > 0
    ensures (n * size - size * count) / size == n - count
  {
    assert n * size - size * count == (n - count) * size;
    RemainderUnique((n - count) * size, size, n - count, 0);
  }

  lemma OneMorePacket(n: nat, size: nat, count: nat)
    requires size > 0
    ensures size * (count + 1) == size * count + size
  {
  }

  /** The test for a full buffer: there is no room for one more packet. */
  lemma FullTest(n: nat, size: nat, count: nat)
    requires size > 0 && count <= n
    ensures size * count + size > n * size <==> count == n
    ensures count == n ==> size * count == n * size
  {
    BytesCount(n, size, count + 1);
    assert size * (count + 1) == size * count + size;
  }

  // ---------- Each step ----------

  lemma GiveUpRefines(s: Setup, c: Core, w: Win)
    requires s.Valid() && BeforeOk(s, c, w) && OutOk(s, First(w), c.out, w.handed) && c.missing == w.missing
    ensures var c', w' := GiveUpBefore(s, c), GiveUp(w, s.numElems);
      && c' == c.(before := None, missing := w'.missing, out := c'.out)
      && w' == w.(before := None, missing := w'.missing, handed := w'.handed)
      && OutOk(s, First(w'), c'.out, w'.handed)
  {
    if c.before.Some? {
      BytesLeft(s.numElems, s.packetSize, w.before.value.count);
      OutOneMore(s, First(w), c.out, w.handed,
                 Delivered(c.before.value.id, s.Capacity(), c.before.value.memory),
                 Handed(w.id - 1, s.numElems, w.before.value));
    }
  }

  lemma LeaveRefines(s: Setup, c: Core, w: Win)
    requires s.Valid() && CurOk(s, c, w) && OutOk(s, First(w), c.out, w.handed) && c.curId == w.id
    requires c.before.None? && w.before.None?
    ensures var c', w' := LeaveCurrent(s, c), Leave(w, s.numElems);
      && c' == c.(before := c'.before, out := c'.out)
      && w' == w.(before := w'.before, handed := w'.handed, id := w.id + 1, cur := EMPTY)
      && BeforeOk(s, c', w') && OutOk(s, First(w'), c'.out, w'.handed)
  {
    BytesCount(s.numElems, s.packetSize, w.cur.count);
    if w.cur.count == s.numElems {
      OutOneMore(s, First(w), c.out, w.handed, Delivered(c.curId, c.inc, c.cur), Handed(w.id, s.numElems, w.cur));
    }
  }

  /** The next buffer is acquired after the file was left. */
  lemma OpenNextRefines(s: Setup, c: Core, w: Win)
    requires w.first.Some? && w.cur == EMPTY && c.cumul == w.id && c.missing == w.missing
    requires c.currentSeq == w.last && c.currentSeq != INT64_MAX
    requires c.seqstart == Base(w.first.value, s.numElems, w.id - 1)
    requires c.firstPacket.Some? && |c.firstPacket.value| == s.packetSize
    requires s.number(c.firstPacket.value) == w.first.value
    requires BeforeOk(s, c, w) && OutOk(s, First(w), c.out, w.handed)
    ensures Matches(s, OpenNext(s, c), w)
  {
    NewBufferHolds(s, First(w), w.id);
    NextBase(w.first.value, s.numElems, w.id - 1);
  }

  lemma LeaveAndOpenRefines(s: Setup, c: Core, w: Win)
    requires s.Valid() && w.first.Some? && c.before.None? && w.before.None? && CurOk(s, c, w)
    requires OutOk(s, First(w), c.out, w.handed) && c.curId == w.id && c.cumul == w.id + 1 && c.missing == w.missing
    requires c.currentSeq == w.last && c.currentSeq != INT64_MAX
    requires c.seqstart == Base(w.first.value, s.numElems, w.id)
    requires c.firstPacket.Some? && |c.firstPacket.value| == s.packetSize
    requires s.number(c.firstPacket.value) == w.first.value
    ensures Matches(s, OpenNext(s, LeaveCurrent(s, c)), Leave(w, s.numElems))
  {
    LeaveRefines(s, c, w);
    OpenNextRefines(s, LeaveCurrent(s, c), Leave(w, s.numElems));
  }

  /** Jumping to the next buffer is advancing the window. */
  lemma JumpRefines(s: Setup, c: Core, w: Win)
    requires s.Valid() && Matches(s, c, w) && w.first.Some?
    ensures Matches(s, Jump(s, c), Advance(w, s.numElems))
  {
    var c1 := c.(cumul := c.cumul + 1);
    GiveUpRefines(s, c1, w);
    LeaveAndOpenRefines(s, GiveUpBefore(s, c1), GiveUp(w, s.numElems));
  }

  /** Where the distance from the start of the current buffer puts a number. */
  lemma DistanceIsPlace(first: int, n: nat, id: int, num: int, step: int)
    requires n > 0 && -1 <= step <= 1
    ensures var d := num - Base(first, n, id) - step * n;
      && (0 <= d < n <==> FileOf(first, n, num) == id + step)
      && (0 <= d < n ==> SlotOf(first, n, num) == d)
  {
    var d := num - Base(first, n, id) - step * n;
    Home(first, n, num);
    assert Base(first, n, id + step) == Base(first, n, id) + step * n;
    if 0 <= d < n {
      HomeIsUnique(first, n, num, id + step, d);
    }
  }

  /** The receive position is a free slot of the current file. */
  lemma PositionIsFree(s: Setup, c: Core, w: Win)
    requires s.Valid() && Aligned(s, c) && Matches(s, c, w) && Ready(w, s.numElems)
    ensures c.i !in w.cur.slots && 0 <= c.i < s.numElems && (w.first.None? ==> c.i == 0)
  {
  }

  lemma FirstRefines(s: Setup, c: Core, w: Win, p: Packet)
    requires s.Valid() && w == START && c == StartCore(s) && Usable(s, p)
    ensures Matches(s, CalcBufpos(s, Stage(c, p)), Place(w, s.numElems, Arrived(s, p)))
  {
    var first := s.number(p);
    OneMorePacket(s.numElems, s.packetSize, w.cur.count);
    NewBufferHolds(s, first, 0);
    StoredIsHeld(s, first, 0, c.cur, w.cur, 0, p);
  }

  /** A packet that stays where it was received. */
  lemma InOrderRefines(s: Setup, c: Core, w: Win, p: Packet)
    requires s.Valid() && |c.cur| == s.numElems && Matches(s, c, w) && w.first.Some? && Usable(s, p)
    requires 0 <= c.buf == c.i < s.numElems && s.number(p) == w.last + 1 == c.seqstart + c.i
    ensures var c' := Stage(c, p);
      Matches(s, TakeInOrder(s, c', s.number(p)), PutHere(w, c.i, Arrived(s, p)))
  {
    OneMorePacket(s.numElems, s.packetSize, w.cur.count);
    StoredIsHeld(s, w.first.value, w.id, c.cur, w.cur, c.i, p);
  }

  /** Staging a packet that does not belong at the receive position changes nothing that matters. */
  lemma StageRefines(s: Setup, c: Core, w: Win, p: Packet)
    requires s.Valid() && Aligned(s, c) && Matches(s, c, w) && Ready(w, s.numElems) && Usable(s, p)
    requires w.first.Some? && s.number(p) != w.last + 1
    ensures 0 <= c.i < s.numElems
    ensures Matches(s, Stage(c, p), w)
  {
    PositionIsFree(s, c, w);
    StagedIsForeign(s, w.first.value, w.id, c.cur, w.cur, c.i, p);
  }

  lemma InsideRefines(s: Setup, c: Core, w: Win, p: Packet, k: nat)
    requires s.Valid() && |c.cur| == s.numElems && Matches(s, c, w) && w.first.Some? && Usable(s, p)
    requires s.number(p) != w.last && s.number(p) == c.seqstart + k && k < s.numElems
    ensures Matches(s, StoreInside(s, c, p, s.number(p), k), PutHere(w, k, Arrived(s, p)))
  {
    OneMorePacket(s.numElems, s.packetSize, w.cur.count);
    StoredIsHeld(s, w.first.value, w.id, c.cur, w.cur, k, p);
  }

  /** The hanging buffer has one more packet. */
  lemma StoreLateRefines(s: Setup, c: Core, w: Win, p: Packet, k: nat, b: Hanging, f: File)
    requires s.Valid() && Matches(s, c, w) && w.first.Some? && Usable(s, p) && k < s.numElems
    requires c.before.Some? && w.before.Some? && |c.before.value.memory| == s.numElems
    requires b == c.before.value.(inc := c.before.value.inc + s.packetSize, memory := c.before.value.memory[k := p])
    requires f == Put(w.before.value, k, Arrived(s, p))
    ensures b.id == w.id - 1 && b.inc == s.packetSize * f.count && HoldsFile(s, w.first.value, w.id - 1, b.memory, f)
  {
    StoredIsHeld(s, w.first.value, w.id - 1, c.before.value.memory, w.before.value, k, p);
    OneMorePacket(s.numElems, s.packetSize, w.before.value.count);
  }

  lemma StillWaitsRefines(s: Setup, c: Core, w: Win, b: Hanging, f: File)
    requires Matches(s, c, w) && w.first.Some? && c.before.Some? && w.before.Some?
    requires b.id == w.id - 1 && b.inc == s.packetSize * f.count && HoldsFile(s, w.first.value, w.id - 1, b.memory, f)
    ensures Matches(s, c.(before := Some(b)), w.(before := Some(f)))
  {
  }

  lemma CompletedRefines(s: Setup, c: Core, w: Win, b: Hanging, f: File)
    requires Matches(s, c, w) && w.first.Some? && c.before.Some? && w.before.Some? && f.count == s.numElems
    requires b.id == w.id - 1 && b.inc == s.packetSize * f.count && HoldsFile(s, w.first.value, w.id - 1, b.memory, f)
    ensures Matches(s, c.(out := c.out + [Delivered(b.id, b.inc, b.memory)], before := None),
                    w.(handed := w.handed + [Handed(w.id - 1, s.numElems, f)], before := None))
  {
    OutOneMore(s, w.first.value, c.out, w.handed, Delivered(b.id, b.inc, b.memory), Handed(w.id - 1, s.numElems, f));
  }

  lemma LateRefines(s: Setup, c: Core, w: Win, p: Packet, k: nat)
    requires s.Valid() && Matches(s, c, w) && w.first.Some? && Usable(s, p)
    requires c.before.Some? && |c.before.value.memory| == s.numElems
    requires w.before.Some? && w.before.value.count < s.numElems && k < s.numElems
    ensures Matches(s, StoreLate(s, c, p, k - s.numElems), PutBefore(w, s.numElems, k, Arrived(s, p)))
  {
    var b, f := c.before.value, Put(w.before.value, k, Arrived(s, p));
    var b' := b.(inc := b.inc + s.packetSize, memory := b.memory[k := p]);
    StoreLateRefines(s, c, w, p, k, b', f);
    FullTest(s.numElems, s.packetSize, f.count);
    if f.count == s.numElems {
      CompletedRefines(s, c, w, b', f);
    } else {
      StillWaitsRefines(s, c, w, b', f);
    }
  }

  /** The packet that ran ahead is stored in the buffer just opened. */
  lemma StoreInNewRefines(s: Setup, c: Core, w: Win, p: Packet, k: nat, c': Core, w': Win)
    requires s.Valid() && Matches(s, c, w) && w.first.Some? && Usable(s, p) && k < s.numElems
    requires c' == c.(cur := c.cur[k := p], inc := c.inc + s.packetSize, currentSeq := s.number(p),
                      i := c.i + k + 1, buf := k + 1)
    requires w' == w.(cur := Put(w.cur, k, Arrived(s, p)), last := s.number(p))
    ensures Matches(s, c', w')
  {
    OneMorePacket(s.numElems, s.packetSize, w.cur.count);
    StoredIsHeld(s, w.first.value, w.id, c.cur, w.cur, k, p);
  }

  /** The buffer a packet that runs ahead is copied out of is still held if and only if it does not count as
      complete; otherwise it has been handed over with the packet in it. */
  lemma AheadReadsHeldIff(s: Setup, c: Core, w: Win)
    requires s.Valid() && Matches(s, c, w)
    ensures var c' := Jump(s, c);
      && (c'.before == Some(Hanging(c.cur, c.curId, c.inc)) <==> w.cur.count != s.numElems)
      && (w.cur.count == s.numElems ==> c'.out != [] && c'.out[|c'.out| - 1] == Delivered(c.curId, c.inc, c.cur))
  {
    BytesCount(s.numElems, s.packetSize, w.cur.count);
  }

  lemma StoreAheadIs(s: Setup, c: Core, p: Packet, k: nat, jumped: Core)
    requires s.packetSize > 0 && k < s.numElems && jumped == Jump(s, c)
    ensures StoreAhead(s, c, p, s.number(p), k + s.numElems)
         == jumped.(cur := jumped.cur[k := p], inc := jumped.inc + s.packetSize, currentSeq := s.number(p),
                    i := jumped.i + k + 1, buf := k + 1)
  {
  }

  lemma AheadRefines(s: Setup, c: Core, w: Win, p: Packet, k: nat, c': Core, w': Win)
    requires s.Valid() && Matches(s, c, w) && w.first.Some? && Usable(s, p) && k < s.numElems
    requires c' == StoreAhead(s, c, p, s.number(p), k + s.numElems)
    requires w' == PutAhead(w, s.numElems, k, Arrived(s, p))
    ensures Matches(s, c', w')
  {
    JumpRefines(s, c, w);
    AdvanceKeepsFirst(w, s.numElems);
    StoreAheadIs(s, c, p, k, Jump(s, c));
    StoreInNewRefines(s, Jump(s, c), Advance(w, s.numElems), p, k, c', w');
  }

  lemma AdvanceKeepsFirst(w: Win, n: nat)
    ensures Advance(w, n).first == w.first
  {
  }

  // The window's choice of file, by the distance from the start of the current one.

  lemma PlaceInside(w: Win, n: nat, a: Arrival, k: nat)
    requires n > 0 && w.first.Some? && a.num != w.last && a.num == Base(w.first.value, n, w.id) + k && k < n
    ensures Place(w, n, a) == PutHere(w, k, a)
  {
    HomeIsUnique(w.first.value, n, a.num, w.id, k);
  }

  lemma PlaceBeyond(w: Win, n: nat, a: Arrival, k: nat)
    requires n > 0 && w.first.Some? && a.num != w.last && a.num == Base(w.first.value, n, w.id) + n + k && k < n
    ensures Place(w, n, a) == PutAhead(w, n, k, a)
  {
    NextBase(w.first.value, n, w.id);
    HomeIsUnique(w.first.value, n, a.num, w.id + 1, k);
  }

  lemma PlaceBehind(w: Win, n: nat, a: Arrival, k: nat)
    requires n > 0 && w.first.Some? && a.num != w.last && a.num == Base(w.first.value, n, w.id) - n + k && k < n
    ensures Place(w, n, a) == if w.before.Some? then PutBefore(w, n, k, a) else Lose(w)
  {
    NextBase(w.first.value, n, w.id - 1);
    HomeIsUnique(w.first.value, n, a.num, w.id - 1, k);
  }

  lemma PlaceNowhere(w: Win, n: nat, a: Arrival)
    requires n > 0 && w.first.Some? && a.num != w.last
    requires var d := a.num - Base(w.first.value, n, w.id); d < 0 - n || d >= 2 * n
    ensures Place(w, n, a) == Lose(w)
  {
    DistanceIsPlace(w.first.value, n, w.id, a.num, 0);
    DistanceIsPlace(w.first.value, n, w.id, a.num, -1);
    DistanceIsPlace(w.first.value, n, w.id, a.num, 1);
  }

  lemma MissingRefines(s: Setup, c: Core, w: Win)
    requires Matches(s, c, w) && w.first.Some?
    ensures Matches(s, c.(missing := c.missing + 1), Lose(w))
  {
  }

  lemma RepeatRefines(s: Setup, c: Core, w: Win)
    requires Matches(s, c, w) && w.first.Some?
    ensures Matches(s, c, w.(repeated := w.repeated + 1))
  {
  }

  lemma PlaceWhenBehind(w: Win, n: nat, a: Arrival, d: int)
    requires n > 0 && w.first.Some? && a.num != w.last && d == a.num - Base(w.first.value, n, w.id) && d < 0
    ensures Place(w, n, a) == if d < 0 - n || w.before.None? then Lose(w) else PutBefore(w, n, n + d, a)
  {
    if d < 0 - n {
      PlaceNowhere(w, n, a);
    } else {
      PlaceBehind(w, n, a, n + d);
    }
  }

  lemma PlaceWhenBeyond(w: Win, n: nat, a: Arrival, d: int)
    requires n > 0 && w.first.Some? && a.num != w.last && d == a.num - Base(w.first.value, n, w.id) && d >= n
    ensures Place(w, n, a) == if d >= 2 * n then Lose(w) else PutAhead(w, n, d - n, a)
  {
    if d < 2 * n {
      PlaceBeyond(w, n, a, d - n);
    } else {
      PlaceNowhere(w, n, a);
    }
  }

  lemma BehindRefines(s: Setup, c: Core, w: Win, p: Packet, d: int, c': Core, w': Win)
    requires s.Valid() && Aligned(s, c) && Matches(s, c, w) && Usable(s, p) && w.first.Some?
    requires w.before.Some? ==> w.before.value.count < s.numElems
    requires d < 0 && c' == StoreLate(s, c, p, d)
    requires w' == if d < 0 - s.numElems || w.before.None? then Lose(w)
                   else PutBefore(w, s.numElems, s.numElems + d, Arrived(s, p))
    ensures Matches(s, c', w')
  {
    if d < 0 - s.numElems || w.before.None? {
      MissingRefines(s, c, w);
    } else {
      LateRefines(s, c, w, p, s.numElems + d);
    }
  }

  lemma BeyondRefines(s: Setup, c: Core, w: Win, p: Packet, d: int, c': Core, w': Win)
    requires s.Valid() && Matches(s, c, w) && Usable(s, p) && w.first.Some? && d >= s.numElems
    requires c' == StoreAhead(s, c, p, s.number(p), d)
    requires w' == if d >= 2 * s.numElems then Lose(w) else PutAhead(w, s.numElems, d - s.numElems, Arrived(s, p))
    ensures Matches(s, c', w')
  {
    if d < 2 * s.numElems {
      AheadRefines(s, c, w, p, d - s.numElems, c', w');
    } else {
      MissingRefines(s, c, w);
    }
  }

  // A packet out of order is sorted as the window says, by the range its number falls into.

  lemma SortBehindRefines(s: Setup, c: Core, w: Win, p: Packet)
    requires s.Valid() && Aligned(s, c) && c.i < s.numElems && Matches(s, c, w) && Usable(s, p) && c.cur[c.buf] == p
    requires w.first.Some? && (w.before.Some? ==> w.before.value.count < s.numElems)
    requires s.number(p) != w.last && s.number(p) != w.last + 1 && s.number(p) < c.seqstart
    ensures Matches(s, CalcBufpos(s, c), Place(w, s.numElems, Arrived(s, p)))
  {
    var d := s.number(p) - c.seqstart;
    PlaceWhenBehind(w, s.numElems, Arrived(s, p), d);
    BehindRefines(s, c, w, p, d, CalcBufpos(s, c), Place(w, s.numElems, Arrived(s, p)));
  }

  lemma SortBeyondRefines(s: Setup, c: Core, w: Win, p: Packet)
    requires s.Valid() && Aligned(s, c) && c.i < s.numElems && Matches(s, c, w) && Usable(s, p) && c.cur[c.buf] == p
    requires w.first.Some? && s.number(p) != w.last && s.number(p) != w.last + 1
    requires s.number(p) - c.seqstart >= s.numElems
    ensures Matches(s, CalcBufpos(s, c), Place(w, s.numElems, Arrived(s, p)))
  {
    var d := s.number(p) - c.seqstart;
    PlaceWhenBeyond(w, s.numElems, Arrived(s, p), d);
    BeyondRefines(s, c, w, p, d, CalcBufpos(s, c), Place(w, s.numElems, Arrived(s, p)));
  }

  lemma SortInsideRefines(s: Setup, c: Core, w: Win, p: Packet)
    requires s.Valid() && Aligned(s, c) && c.i < s.numElems && Matches(s, c, w) && Usable(s, p) && c.cur[c.buf] == p
    requires w.first.Some? && s.number(p) != w.last && s.number(p) != w.last + 1
    requires 0 <= s.number(p) - c.seqstart < s.numElems
    ensures Matches(s, CalcBufpos(s, c), Place(w, s.numElems, Arrived(s, p)))
  {
    var d := s.number(p) - c.seqstart;
    PlaceInside(w, s.numElems, Arrived(s, p), d);
    InsideRefines(s, c, w, p, d);
    assert CalcBufpos(s, c) == StoreInside(s, c, p, s.number(p), d);
  }

  lemma SortRepeatRefines(s: Setup, c: Core, w: Win, p: Packet)
    requires s.Valid() && Aligned(s, c) && c.i < s.numElems && Matches(s, c, w) && c.cur[c.buf] == p
    requires w.first.Some? && s.number(p) == w.last
    ensures Matches(s, CalcBufpos(s, c), Place(w, s.numElems, Arrived(s, p)))
  {
    RepeatRefines(s, c, w);
  }

  lemma SortRefines(s: Setup, c: Core, w: Win, p: Packet)
    requires s.Valid() && Aligned(s, c) && c.i < s.numElems && Matches(s, c, w) && Usable(s, p) && c.cur[c.buf] == p
    requires w.first.Some? && s.number(p) != w.last + 1
    requires w.before.Some? ==> w.before.value.count < s.numElems
    ensures Matches(s, CalcBufpos(s, c), Place(w, s.numElems, Arrived(s, p)))
  {
    if s.number(p) == w.last {
      SortRepeatRefines(s, c, w, p);
    } else if s.number(p) < c.seqstart {
      SortBehindRefines(s, c, w, p);
    } else if s.number(p) - c.seqstart >= s.numElems {
      SortBeyondRefines(s, c, w, p);
    } else {
      SortInsideRefines(s, c, w, p);
    }
  }

  /** The receive position is behind the last slot exactly when the window has advanced to the last number. */
  lemma PassedIsFull(s: Setup, c: Core, w: Win)
    requires s.Valid() && Aligned(s, c) && Matches(s, c, w)
    ensures c.i == s.numElems <==> IsPassed(w, s.numElems)
  {
  }

  lemma IndexedMatches(s: Setup, c: Core, w: Win, indexed: int)
    requires Matches(s, c, w) && w.first.Some?
    ensures Matches(s, c.(indexed := indexed), w)
  {
  }

  lemma PassingRefines(s: Setup, c: Core, w: Win, c': Core, w': Win)
    requires s.Valid() && Matches(s, c, w) && w.first.Some?
    requires c' == Jump(s, c.(indexed := c.indexed + s.numElems)) && w' == Advance(w, s.numElems)
    ensures Matches(s, c', w')
  {
    IndexedMatches(s, c, w, c.indexed + s.numElems);
    JumpRefines(s, c.(indexed := c.indexed + s.numElems), w);
  }

  lemma SwitchRefines(s: Setup, c: Core, w: Win)
    requires s.Valid() && Aligned(s, c) && Matches(s, c, w)
    ensures Matches(s, SwitchBuffer(s, c), Switch(w, s.numElems))
  {
    PassedIsFull(s, c, w);
    if IsPassed(w, s.numElems) {
      PassingRefines(s, c, w, SwitchBuffer(s, c), Switch(w, s.numElems));
    }
  }

  /** One round of the receive loop is one step of the window. */
  lemma PlaceRefines(s: Setup, c: Core, w: Win, p: Packet)
    requires s.Valid() && Aligned(s, c) && Matches(s, c, w) && Ready(w, s.numElems) && Usable(s, p)
    ensures 0 <= c.i < s.numElems
    ensures Matches(s, CalcBufpos(s, Stage(c, p)), Place(w, s.numElems, Arrived(s, p)))
  {
    PositionIsFree(s, c, w);
    if w.first.None? {
      FirstRefines(s, c, w, p);
    } else if s.number(p) == w.last + 1 {
      PlaceInside(w, s.numElems, Arrived(s, p), c.i);
      InOrderRefines(s, c, w, p);
    } else {
      StageRefines(s, c, w, p);
      SortRefines(s, Stage(c, p), w, p);
    }
  }

  lemma AbortedIsOverfull(s: Setup, c: Core, w: Win)
    requires s.Valid() && CurOk(s, c, w)
    ensures Overfull(s, c) <==> Aborted(w, s.numElems)
  {
    BytesCount(s.numElems, s.packetSize, w.cur.count);
  }

  lemma ReceiveRefines(s: Setup, c: Core, w: Win, p: Packet)
    requires s.Valid() && Aligned(s, c) && Matches(s, c, w) && Usable(s, p)
    requires Inv(w, s.numElems) && !Aborted(w, s.numElems)
    ensures Matches(s, ReceiveOne(s, c, p), Step(w, s.numElems, Arrived(s, p)))
  {
    SwitchRefines(s, c, w);
    SwitchInv(w, s.numElems);
    PlaceRefines(s, SwitchBuffer(s, c), Switch(w, s.numElems), p);
  }

  lemma StartRefines(s: Setup)
    requires s.Valid()
    ensures Matches(s, StartCore(s), START)
  {
    NewBufferHolds(s, 0, 0);
  }

  /** The receiver refines the window over every run: same current file, same counters (in bytes), every
      accepted packet at its slot, the receive position right after the newest packet, and the same
      files handed over with the same contents. */
  lemma {:induction false} RunRefines(s: Setup, packets: seq<Packet>)
    requires s.Valid() && forall p :: p in packets ==> Usable(s, p)
    ensures Matches(s, RunCore(s, packets), Run(s.numElems, Arrivals(s, packets)))
  {
    var n := s.numElems;
    if packets == [] {
      StartRefines(s);
    } else {
      var init, p := packets[..|packets| - 1], packets[|packets| - 1];
      RunRefines(s, init);
      assert Arrivals(s, packets)[..|packets| - 1] == Arrivals(s, init);
      RunKeepsInv(n, Arrivals(s, init));
      var c, w := RunCore(s, init), Run(n, Arrivals(s, init));
      AbortedIsOverfull(s, c, w);
      if !Aborted(w, n) {
        ReceiveRefines(s, c, w, p);
      }
    }
  }

  lemma FlushCurrentRefines(s: Setup, c: Core, w: Win, out: seq<Delivered>, handed: seq<Handed>)
    requires s.Valid() && Matches(s, c, w) && OutOk(s, First(w), out, handed)
    ensures c.inc == 0 <==> w.cur.count == 0
    ensures OutOk(s, First(w), out + [Delivered(c.curId, c.inc, c.cur)], handed + [Handed(w.id, w.cur.count, w.cur)])
  {
    NoBytesNoPackets(s.packetSize, w.cur.count);
    OutOneMore(s, First(w), out, handed, Delivered(c.curId, c.inc, c.cur), Handed(w.id, w.cur.count, w.cur));
  }

  /** The final flush hands over what the window hands over at the end. */
  lemma FlushRefines(s: Setup, c: Core, w: Win)
    requires s.Valid() && Matches(s, c, w)
    ensures OutOk(s, First(w), Flush(s, c).out, Finish(w, s.numElems).handed)
  {
    if c.before.Some? {
      var d := Delivered(c.before.value.id, s.Capacity(), c.before.value.memory);
      var h := Handed(w.id - 1, s.numElems, w.before.value);
      OutOneMore(s, First(w), c.out, w.handed, d, h);
      FlushCurrentRefines(s, c, w, c.out + [d], w.handed + [h]);
    } else {
      FlushCurrentRefines(s, c, w, c.out, w.handed);
    }
  }

  lemma NoBytesNoPackets(size: nat, count: nat)
    requires size > 0
    ensures size * count == 0 <==> count == 0
  {
    if count > 0 {
      AtLeastOnce(count, size);
    }
  }

  lemma {:induction false} OutOkAt(s: Setup, first: int, out: seq<Delivered>, handed: seq<Handed>, j: nat)
    requires OutOk(s, first, out, handed)
    ensures |out| == |handed|
    ensures j < |out| ==> DeliveredOk(s, first, out[j], handed[j])
  {
    if out != [] {
      OutOkAt(s, first, out[..|out| - 1], handed[..|handed| - 1], j);
    }
  }
}
