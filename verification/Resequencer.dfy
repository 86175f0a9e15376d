/** The receiving side of the UDP streamer: packets land in the next free slot of the current buffer
    and are copied to the slot their number asks for when they are out of order. */
module Resequencer {
  import opened Headers
  import opened Options

  /** A buffer handed to its writer: which file it is, how many bytes to write, what it holds. */
  datatype Delivered = Delivered(id: int, bytes: nat, contents: seq<Packet>)

  /** The mark the streamer keeps in both sequence fields until the first packet. */
  const INT64_MAX: int := 0x7fff_ffff_ffff_ffff

  /** What the receiver is set up with. `number` reads the packet number, as the data type of the stream
      has it. `stock(id, k)` is what slot k of the buffer acquired for file `id` holds when it comes out
      of the pool: anything, since buffers are reused. */
  datatype Setup = Setup(number: Packet -> int, numElems: nat, packetSize: nat, stock: (nat, nat) -> Packet) {
    function Capacity(): nat {
      numElems * packetSize
    }

    /** The memory of that buffer; slots that were never used are still zero. */
    function Acquired(id: nat): (memory: seq<Packet>)
      ensures |memory| == numElems
    {
      seq(numElems, k requires 0 <= k < numElems =>
        if |stock(id, k)| == packetSize then stock(id, k) else seq(packetSize, _ => 0))
    }

    /** The packets that a buffer with this byte counter still lacks. */
    function Lacking(inc: nat): int
      requires packetSize > 0
    {
      (Capacity() - inc) / packetSize
    }

    predicate Valid() {
      numElems > 0 && packetSize > 0
    }
  }

  predicate Sized(s: Setup, memory: seq<Packet>) {
    |memory| == s.numElems && forall k :: 0 <= k < |memory| ==> |memory[k]| == s.packetSize
  }

  /** A buffer left hanging for late packets. */
  datatype Hanging = Hanging(memory: seq<Packet>, id: int, inc: nat)

  /** The state of a receiver as a value; the fields are those of `Receiver` below. */
  datatype Core = Core(
    cur: seq<Packet>, curId: int, inc: nat, before: Option<Hanging>,
    i: int, buf: int, currentSeq: int, seqstart: int, cumul: nat,
    missing: int, indexed: int, firstPacket: Option<Packet>, out: seq<Delivered>)

  predicate Unset(c: Core) {
    c.currentSeq == INT64_MAX && c.seqstart == INT64_MAX
  }

  /** The receive position is the slot after the newest packet, in both of its representations. */
  predicate Aligned(s: Setup, c: Core) {
    && s.numElems > 0
    && |c.cur| == s.numElems && (c.before.Some? ==> |c.before.value.memory| == s.numElems)
    && c.buf == c.i && 0 <= c.i <= s.numElems
    && if Unset(c) then c.i == 0 else c.i == c.currentSeq - c.seqstart + 1
  }

  function StartCore(s: Setup): Core {
    Core(s.Acquired(0), 0, 0, None, 0, 0, INT64_MAX, INT64_MAX, 0, 0, 0, None, [])
  }

  function GiveUpBefore(s: Setup, c: Core): Core
    requires s.packetSize > 0
  {
    if c.before.None? then c else
      c.(missing := c.missing + s.Lacking(c.before.value.inc),
         out := c.out + [Delivered(c.before.value.id, s.Capacity(), c.before.value.memory)],
         before := None)
  }

  function LeaveCurrent(s: Setup, c: Core): Core {
    if c.inc == s.Capacity()
    then c.(out := c.out + [Delivered(c.curId, c.inc, c.cur)], before := None)
    else c.(before := Some(Hanging(c.cur, c.curId, c.inc)))
  }

  /** The buffer of file `cumul`, empty. */
  function OpenNext(s: Setup, c: Core): Core {
    c.(i := 0, buf := 0, inc := 0, cur := s.Acquired(c.cumul), curId := c.cumul,
       seqstart := c.seqstart + s.numElems)
  }

  /** Leaves the current file and opens the next. */
  function Jump(s: Setup, c: Core): Core
    requires s.packetSize > 0
  {
    OpenNext(s, LeaveCurrent(s, GiveUpBefore(s, c.(cumul := c.cumul + 1))))
  }

  /** A file that passed its last slot is left before the next packet, and only then the file index
      counts its packets. */
  function SwitchBuffer(s: Setup, c: Core): Core
    requires s.packetSize > 0
  {
    if c.i == s.numElems then Jump(s, c.(indexed := c.indexed + s.numElems)) else c
  }

  /** The packet received into the slot the receive position names. */
  function Stage(c: Core, p: Packet): Core
    requires 0 <= c.buf < |c.cur|
  {
    c.(cur := c.cur[c.buf := p], firstPacket := if c.firstPacket.None? then Some(p) else c.firstPacket)
  }

  /** A packet `fromStart` slots before the current buffer. */
  function StoreLate(s: Setup, c: Core, p: Packet, fromStart: int): Core
    requires fromStart < 0 && (c.before.Some? ==> |c.before.value.memory| == s.numElems)
  {
    if c.before.None? || fromStart < -(s.numElems as int) then
      c.(missing := c.missing + 1)
    else
      var b := c.before.value;
      var b' := b.(inc := b.inc + s.packetSize, memory := b.memory[s.numElems + fromStart := p]);
      if b'.inc + s.packetSize > s.Capacity()
      then c.(out := c.out + [Delivered(b'.id, b'.inc, b'.memory)], before := None)
      else c.(before := Some(b'))
  }

  /** A packet `fromStart` slots after the start of the current buffer, and beyond its end. */
  function StoreAhead(s: Setup, c: Core, p: Packet, seqnum: int, fromStart: int): Core
    requires fromStart >= s.numElems && s.packetSize > 0
  {
    if fromStart >= s.numElems * 2 then
      c.(missing := c.missing + 1)
    else
      var k, c' := fromStart - s.numElems, Jump(s, c);
      c'.(cur := c'.cur[k := p], inc := c'.inc + s.packetSize, currentSeq := seqnum, i := c'.i + k + 1, buf := k + 1)
  }

  /** The packet stays where it was received. */
  function TakeInOrder(s: Setup, c: Core, seqnum: int): Core {
    c.(currentSeq := seqnum, inc := c.inc + s.packetSize, i := c.i + 1, buf := c.buf + 1)
  }

  /** The packet is copied to its slot in the current buffer; a newer one moves the receive position
      behind it. */
  function StoreInside(s: Setup, c: Core, p: Packet, seqnum: int, fromStart: int): Core
    requires 0 <= fromStart < |c.cur|
  {
    var c' := c.(inc := c.inc + s.packetSize, cur := c.cur[fromStart := p]);
    if seqnum < c.currentSeq then c' else
      c'.(i := c.i + (seqnum - c.currentSeq), currentSeq := seqnum, buf := fromStart + 1)
  }

  /** Where the staged packet goes, by the distances of its number to the start of the buffer and to
      the newest number. */
  function CalcBufpos(s: Setup, c: Core): Core
    requires Aligned(s, c) && c.i < s.numElems && s.packetSize > 0
  {
    var p := c.cur[c.buf];
    var seqnum := s.number(p);
    var fromStart := seqnum - c.seqstart;
    if Unset(c) then TakeInOrder(s, c.(seqstart := seqnum), seqnum)
    else if seqnum == c.currentSeq + 1 then TakeInOrder(s, c, seqnum)
    else if seqnum == c.currentSeq then c
    else if fromStart < 0 then StoreLate(s, c, p, fromStart)
    else if fromStart >= s.numElems then StoreAhead(s, c, p, seqnum, fromStart)
    else StoreInside(s, c, p, seqnum, fromStart)
  }

  lemma JumpIsAligned(s: Setup, c: Core)
    requires s.packetSize > 0 && |c.cur| == s.numElems
    ensures var c' := Jump(s, c);
      && c'.i == c'.buf == 0 && |c'.cur| == s.numElems && c'.seqstart == c.seqstart + s.numElems
      && c'.currentSeq == c.currentSeq
      && (c'.before.Some? ==> |c'.before.value.memory| == s.numElems)
  {
  }

  lemma AheadKeepsAligned(s: Setup, c: Core, p: Packet, seqnum: int)
    requires Aligned(s, c) && s.packetSize > 0 && seqnum != INT64_MAX && seqnum - c.seqstart >= s.numElems && !Unset(c)
    ensures Aligned(s, StoreAhead(s, c, p, seqnum, seqnum - c.seqstart))
  {
    JumpIsAligned(s, c);
  }

  /** After every packet the receive position is again the slot behind the newest one. */
  lemma CalcKeepsAligned(s: Setup, c: Core)
    requires Aligned(s, c) && c.i < s.numElems && s.packetSize > 0
    requires s.number(c.cur[c.buf]) != INT64_MAX
    ensures Aligned(s, CalcBufpos(s, c))
  {
    var seqnum := s.number(c.cur[c.buf]);
    if !Unset(c) && seqnum - c.seqstart >= s.numElems {
      AheadKeepsAligned(s, c, c.cur[c.buf], seqnum);
    }
  }

  /** The buffer left hanging is handed over at the end of reception. */
  function FlushBefore(s: Setup, c: Core): Core {
    if c.before.None? then c else
      c.(out := c.out + [Delivered(c.before.value.id, s.Capacity(), c.before.value.memory)], before := None)
  }

  /** And then the current one, with as many packets added to the file index as its receive position says. */
  function FlushCurrent(c: Core): Core {
    if c.inc == 0 then c else
      c.(cumul := c.cumul + 1, indexed := c.indexed + c.i, out := c.out + [Delivered(c.curId, c.inc, c.cur)])
  }

  /** End of reception. */
  function Flush(s: Setup, c: Core): Core {
    FlushCurrent(FlushBefore(s, c))
  }

  /** The streamer's assertion on the byte counter fails. */
  predicate Overfull(s: Setup, c: Core) {
    c.inc > s.Capacity()
  }

  /** A full-sized packet whose number is not the mark for "none yet". */
  predicate Usable(s: Setup, p: Packet) {
    |p| == s.packetSize && s.number(p) != INT64_MAX
  }

  function ReceiveOne(s: Setup, c: Core, p: Packet): (c': Core)
    requires s.Valid() && Aligned(s, c) && Usable(s, p)
    ensures Aligned(s, c')
  {
    var staged := Stage(SwitchBuffer(s, c), p);
    CalcKeepsAligned(s, staged);
    CalcBufpos(s, staged)
  }

  function RunCore(s: Setup, packets: seq<Packet>): (c: Core)
    requires s.Valid() && forall p :: p in packets ==> Usable(s, p)
    ensures Aligned(s, c)
  {
    if packets == [] then StartCore(s) else
      var c := RunCore(s, packets[..|packets| - 1]);
      if Overfull(s, c) then c else ReceiveOne(s, c, packets[|packets| - 1])
  }

  /** The receiver, with the memory it works in. */
  class Receiver {
    const setup: Setup
    var cur: array<Packet>        // memory of the current buffer
    var curId: int                // the file it was acquired for
    var inc: nat                  // its byte counter
    var before: array?<Packet>    // the buffer left hanging, if any
    var beforeId: int
    var incBefore: nat
    var i: int
    var buf: int                  // the slot the next packet is received into
    var currentSeq: int
    var seqstart: int
    var cumul: nat
    var missing: int
    var indexed: int              // the packets counted in the file index
    var firstPacket: Option<Packet>
    var out: seq<Delivered>       // what the writers were given, in order

    ghost function View(): Core
      reads this, cur, before
    {
      Core(cur[..], curId, inc, if before == null then None else Some(Hanging(before[..], beforeId, incBefore)),
           i, buf, currentSeq, seqstart, cumul, missing, indexed, firstPacket, out)
    }

    ghost predicate Valid()
      reads this, cur, before
    {
      setup.Valid() && before != cur && Aligned(setup, View())
    }

    constructor (setup: Setup)
      requires setup.Valid()
      ensures Valid() && fresh(cur) && before == null
      ensures this.setup == setup && View() == StartCore(setup)
    {
      this.setup := setup;
      cur := new Packet[setup.numElems](k requires 0 <= k < setup.numElems => setup.Acquired(0)[k]);
      curId, inc, before, beforeId, incBefore := 0, 0, null, 0, 0;
      i, buf, currentSeq, seqstart, cumul := 0, 0, INT64_MAX, INT64_MAX, 0;
      missing, indexed, firstPacket, out := 0, 0, None, [];
      new;
      assert cur[..] == setup.Acquired(0);
    }

    /** A buffer out of the pool, with whatever its memory holds. */
    method GetFree(id: nat) returns (memory: array<Packet>)
      ensures fresh(memory) && memory[..] == setup.Acquired(id) && memory.Length == setup.numElems
    {
      memory := new Packet[setup.numElems](k requires 0 <= k < setup.numElems => setup.Acquired(id)[k]);
      assert memory[..] == setup.Acquired(id);
    }

    method FreeBefore()
      requires setup.packetSize > 0
      modifies this
      ensures View() == GiveUpBefore(setup, old(View())) && before == null && cur == old(cur)
    {
      if before != null {
        missing := missing + setup.Lacking(incBefore);
        incBefore := setup.Capacity();
        out := out + [Delivered(beforeId, incBefore, before[..])];
        before := null;
      }
    }

    method FreeOrKeepCurrent()
      requires before == null
      modifies this
      ensures View() == LeaveCurrent(setup, old(View())) && (before == null || before == cur) && cur == old(cur)
    {
      if inc == setup.Capacity() {
        out := out + [Delivered(curId, inc, cur[..])];
        before := null;
      } else {
        before, beforeId, incBefore := cur, curId, inc;
      }
    }

    method OpenBuffer(memory: array<Packet>)
      requires memory[..] == setup.Acquired(cumul)
      modifies this`i, this`cur, this`curId, this`inc, this`buf, this`seqstart
      ensures View() == OpenNext(setup, old(View())) && cur == memory
    {
      i := 0;
      cur, curId, inc, buf := memory, cumul, 0, 0;
      seqstart := seqstart + setup.numElems;
    }

    method AcquireNext()
      modifies this`i, this`cur, this`curId, this`inc, this`buf, this`seqstart
      ensures View() == OpenNext(setup, old(View()))
      ensures fresh(cur) && before == old(before) && cur.Length == setup.numElems
    {
      var memory := GetFree(cumul);
      OpenBuffer(memory);
    }

    /** Hands over the buffer left hanging, hands over or leaves the current one, and acquires the buffer
        of the next file. */
    method JumpToNextBuf()
      requires setup.packetSize > 0
      modifies this
      ensures View() == Jump(setup, old(View()))
      ensures fresh(cur) && (before == null || before == old(cur)) && cur.Length == setup.numElems
      ensures before == old(cur) <==> old(inc) != setup.Capacity()
    {
      cumul := cumul + 1;
      FreeBefore();
      FreeOrKeepCurrent();
      AcquireNext();
    }

    method HandleBufferSwitch()
      requires Valid()
      modifies this
      ensures Valid() && i < setup.numElems
      ensures View() == SwitchBuffer(setup, old(View()))
      ensures (cur == old(cur) && before == old(before)) || (fresh(cur) && (before == null || before == old(cur)))
    {
      if i == setup.numElems {
        indexed := indexed + setup.numElems;
        JumpToNextBuf();
      }
    }

    /** Copies a packet that belongs before the current buffer into the one left hanging. */
    method DelayedBeyondFile(fromStart: int)
      requires before != cur && (before != null ==> before.Length == setup.numElems)
      requires 0 <= buf < cur.Length && fromStart < 0
      modifies this, before
      ensures View() == StoreLate(setup, old(View()), old(cur[buf]), fromStart)
      ensures cur == old(cur) && (before == null || before == old(before))
    {
      if before == null || fromStart < -(setup.numElems as int) {
        missing := missing + 1;
        return;
      }
      incBefore := incBefore + setup.packetSize;
      before[setup.numElems + fromStart] := cur[buf];
      if incBefore + setup.packetSize > setup.Capacity() {
        out := out + [Delivered(beforeId, incBefore, before[..])];
        before := null;
      }
    }

    /** Follows a packet into the next file. The packet is copied out of the buffer it was received into after
        that buffer was left: it is still held then if and only if it was not complete. */
    method AheadBeyondFile(seqnum: int, fromStart: int)
      requires setup.Valid() && 0 <= buf < cur.Length && fromStart >= setup.numElems
      modifies this
      ensures View() == StoreAhead(setup, old(View()), old(cur[buf]), seqnum, fromStart)
      ensures (cur == old(cur) && before == old(before)) || (fresh(cur) && (before == null || before == old(cur)))
      ensures cur != old(cur) ==> (before == old(cur) <==> old(inc) != setup.Capacity())
    {
      if fromStart >= setup.numElems * 2 {
        missing := missing + 1;
        return;
      }
      var fromNextStart, origMemory, origSpot := fromStart - setup.numElems, cur, buf;
      JumpToNextBuf();
      StoreInNext(origMemory[origSpot], seqnum, fromNextStart);
    }

    /** Copies the packet to its slot in the buffer just opened. */
    method StoreInNext(origbuf: Packet, seqnum: int, fromNextStart: nat)
      requires fromNextStart < cur.Length && before != cur
      modifies this`inc, this`currentSeq, this`i, this`buf, cur
      ensures View() == old(View()).(cur := old(cur[..])[fromNextStart := origbuf], inc := old(inc) + setup.packetSize,
                                     currentSeq := seqnum, i := old(i) + fromNextStart + 1, buf := fromNextStart + 1)
    {
      cur[fromNextStart] := origbuf;
      inc := inc + setup.packetSize;
      currentSeq := seqnum;
      i := i + fromNextStart + 1;
      buf := fromNextStart + 1;
    }

    method InOrder(seqnum: int)
      modifies this
      ensures View() == TakeInOrder(setup, old(View()), seqnum) && cur == old(cur) && before == old(before)
    {
      currentSeq := seqnum;
      inc := inc + setup.packetSize;
      i := i + 1;
      buf := buf + 1;
    }

    /** Copies a packet to its slot in the current buffer. */
    method InsideBuffer(seqnum: int, fromStart: int)
      requires before != cur && 0 <= fromStart < cur.Length && 0 <= buf < cur.Length && seqnum != currentSeq
      modifies this, cur
      ensures View() == StoreInside(setup, old(View()), old(cur[buf]), seqnum, fromStart)
      ensures cur == old(cur) && before == old(before)
    {
      inc := inc + setup.packetSize;
      cur[fromStart] := cur[buf];
      if seqnum > currentSeq {
        i := i + (seqnum - currentSeq);
        currentSeq := seqnum;
        buf := fromStart + 1;
      }
    }

    /** Sorts the packet just received at the receive position to where it belongs. */
    method CalcBufposGeneral()
      requires Valid() && i < setup.numElems
      modifies this, cur, before
      ensures View() == CalcBufpos(setup, old(View()))
      ensures (cur == old(cur) && (before == null || before == old(before)))
           || (fresh(cur) && (before == null || before == old(cur)))
    {
      var seqnum := setup.number(cur[buf]);
      if currentSeq == INT64_MAX && seqstart == INT64_MAX {
        seqstart := seqnum;
        InOrder(seqnum);
      } else if seqnum == currentSeq + 1 {
        InOrder(seqnum);
      } else if seqnum != currentSeq {
        var fromStart, toCurrent := seqnum - seqstart, seqnum - currentSeq;
        if toCurrent < 0 {
          if fromStart < 0 {
            DelayedBeyondFile(fromStart);
          } else {
            InsideBuffer(seqnum, fromStart);
          }
        } else if fromStart >= setup.numElems {
          AheadBeyondFile(seqnum, fromStart);
        } else {
          InsideBuffer(seqnum, fromStart);
        }
      }
    }

    /** Receives into the slot at the receive position. */
    method ReceiveInto(p: Packet)
      requires Valid() && i < setup.numElems
      modifies this`firstPacket, cur
      ensures Valid() && View() == Stage(old(View()), p)
    {
      cur[buf] := p;
      if firstPacket.None? {
        firstPacket := Some(p);
      }
    }

    /** One round of the receive loop: switch buffers if needed, receive, sort. The result says whether the
        assertion on the byte counter holds. */
    method HandleReceivedPacket(p: Packet) returns (ok: bool)
      requires Valid() && Usable(setup, p)
      modifies this, cur, before
      ensures Valid() && View() == ReceiveOne(setup, old(View()), p)
      ensures ok == !Overfull(setup, View())
      ensures cur == old(cur) || fresh(cur)
      ensures before == null || before == old(before) || before == old(cur) || fresh(before)
    {
      HandleBufferSwitch();
      ReceiveInto(p);
      CalcKeepsAligned(setup, View());
      CalcBufposGeneral();
      ok := inc <= setup.Capacity();
    }

    /** The final flush: the hanging buffer is written whole, the current one only as far as bytes were
        counted, and not at all if none were. */
    method ReleaseAll()
      requires Valid()
      modifies this
      ensures View() == Flush(setup, old(View()))
    {
      if before != null {
        incBefore := setup.Capacity();
        out := out + [Delivered(beforeId, incBefore, before[..])];
        before := null;
      }
      if inc != 0 {
        indexed := indexed + i;
        cumul := cumul + 1;
        out := out + [Delivered(curId, inc, cur[..])];
      }
    }

    /** The last round, in which no packet comes, and the flush. */
    method Stop(waiting: bool)
      requires Valid()
      modifies this
      ensures View() == Flush(setup, if waiting then SwitchBuffer(setup, old(View())) else old(View()))
    {
      if waiting {
        HandleBufferSwitch();
      }
      ReleaseAll();
    }
  }

  /** The state in which reception ends: the round in which the streamer is stopped has switched buffers
      already if it was waiting for another packet. */
  function StoppedCore(s: Setup, packets: seq<Packet>, waiting: bool): (c: Core)
    requires s.Valid() && forall p :: p in packets ==> Usable(s, p)
    ensures Aligned(s, c)
  {
    if waiting then SwitchBuffer(s, RunCore(s, packets)) else RunCore(s, packets)
  }

  /** What the receiving thread leaves behind: it stops at once when the assertion fails. */
  function LastCore(s: Setup, packets: seq<Packet>, waiting: bool): Core
    requires s.Valid() && forall p :: p in packets ==> Usable(s, p)
  {
    if Overfull(s, RunCore(s, packets)) then RunCore(s, packets) else Flush(s, StoppedCore(s, packets, waiting))
  }

  /** The receiving thread over a whole stream of packets; `waiting` says whether it is stopped while it
      waits for one more. Returns what the writers were given, the missing counter, the packets counted in
      the file index, the first packet, and whether the assertion stopped it. */
  method UdpReceiver(setup: Setup, packets: seq<Packet>, waiting: bool)
    returns (out: seq<Delivered>, missing: int, indexed: int, first: Option<Packet>, aborted: bool)
    requires setup.Valid() && forall p :: p in packets ==> Usable(setup, p)
    ensures aborted == Overfull(setup, RunCore(setup, packets))
    ensures var c := LastCore(setup, packets, waiting);
      out == c.out && missing == c.missing && indexed == c.indexed && first == c.firstPacket
  {
    var r := new Receiver(setup);
    aborted := false;
    var t := 0;
    while t < |packets| && !aborted
      invariant 0 <= t <= |packets|
      invariant r.Valid() && r.setup == setup && fresh(r) && fresh(r.cur) && (r.before != null ==> fresh(r.before))
      invariant r.View() == RunCore(setup, packets[..t])
      invariant aborted == Overfull(setup, r.View())
    {
      assert packets[..t + 1][..t] == packets[..t];
      var ok := r.HandleReceivedPacket(packets[t]);
      t := t + 1;
      aborted := !ok;
    }
    StaysOverfull(setup, packets, t);
    assert packets[..|packets|] == packets;
    if !aborted {
      r.Stop(waiting);
    }
    out, missing, indexed, first := r.out, r.missing, r.indexed, r.firstPacket;
  }

  lemma {:induction false} StaysOverfull(s: Setup, packets: seq<Packet>, t: nat)
    requires s.Valid() && (forall p :: p in packets ==> Usable(s, p)) && t <= |packets|
    requires Overfull(s, RunCore(s, packets[..t])) || t == |packets|
    ensures RunCore(s, packets) == RunCore(s, packets[..t])
  {
    if t == |packets| {
      assert packets[..t] == packets;
    } else {
      var init := packets[..|packets| - 1];
      assert init[..t] == packets[..t];
      StaysOverfull(s, init, t);
    }
  }

  /** The packet kept as the first is the first that was received. */
  lemma {:induction false} FirstPacketIs(s: Setup, packets: seq<Packet>)
    requires s.Valid() && (forall p :: p in packets ==> Usable(s, p)) && packets != []
    ensures RunCore(s, packets).firstPacket == Some(packets[0])
  {
    var init, p := packets[..|packets| - 1], packets[|packets| - 1];
    if init == [] {
      assert RunCore(s, init) == StartCore(s);
      SortingKeepsFirst(s, Stage(SwitchBuffer(s, StartCore(s)), p));
    } else {
      FirstPacketIs(s, init);
      if !Overfull(s, RunCore(s, init)) {
        SortingKeepsFirst(s, Stage(SwitchBuffer(s, RunCore(s, init)), p));
      }
    }
  }

  lemma SortingKeepsFirst(s: Setup, c: Core)
    requires Aligned(s, c) && c.i < s.numElems && s.packetSize > 0
    ensures CalcBufpos(s, c).firstPacket == c.firstPacket
  {
  }

  // ---------- A buffer read after it was handed over ----------

  lemma RunCoreExtends(s: Setup, packets: seq<Packet>, p: Packet)
    requires s.Valid() && (forall q :: q in packets ==> Usable(s, q)) && Usable(s, p)
    requires !Overfull(s, RunCore(s, packets))
    ensures forall q :: q in packets + [p] ==> Usable(s, q)
    ensures RunCore(s, packets + [p]) == ReceiveOne(s, RunCore(s, packets), p)
  {
    assert (packets + [p])[..|packets|] == packets;
  }

  /** Numbers 0, 1 and 0 again fill the byte counter of a buffer of three, with slot 2 still free. */
  predicate FullTooEarly(s: Setup, c: Core) {
    && s.numElems == 3 && |c.cur| == 3 && c.curId == 0 && c.inc == s.Capacity() && c.before.None? && c.out == []
    && c.i == c.buf == 2 && c.currentSeq == 1 && c.seqstart == 0
  }

  lemma RepeatFillsCounter(s: Setup, p: Packet, q: Packet, r: Packet)
    requires s.Valid() && s.numElems == 3 && Usable(s, p) && Usable(s, q) && Usable(s, r)
    requires s.number(p) == 0 && s.number(q) == 1 && s.number(r) == 0
    ensures forall x :: x in [p] + [q] + [r] ==> Usable(s, x)
    ensures FullTooEarly(s, RunCore(s, [p] + [q] + [r]))
  {
    assert RunCore(s, []) == StartCore(s);
    RunCoreExtends(s, [], p);
    assert [] + [p] == [p];
    RunCoreExtends(s, [p], q);
    RunCoreExtends(s, [p] + [q], r);
  }

  lemma StagedIsHandedOver(s: Setup, c: Core, p: Packet)
    requires s.Valid() && FullTooEarly(s, c) && Aligned(s, c) && Usable(s, p) && s.number(p) == 4
    ensures ReceiveOne(s, c, p).out == [Delivered(0, s.Capacity(), c.cur[2 := p])]
  {
  }

  /** When 4 runs ahead then, buffer 0 is handed over as complete with packet 4 staged in its slot 2, and the
      packet is copied out of it only afterwards. */
  lemma CopiedFromReleased(s: Setup, p: Packet, q: Packet, r: Packet, a: Packet)
    requires s.Valid() && s.numElems == 3 && Usable(s, p) && Usable(s, q) && Usable(s, r) && Usable(s, a)
    requires s.number(p) == 0 && s.number(q) == 1 && s.number(r) == 0 && s.number(a) == 4
    ensures var packets := [p] + [q] + [r] + [a];
      && (forall x :: x in packets ==> Usable(s, x))
      && var out := RunCore(s, packets).out;
         && |out| == 1 && out[0].id == 0 && out[0].bytes == s.Capacity()
         && |out[0].contents| == 3 && out[0].contents[2] == a
  {
    RepeatFillsCounter(s, p, q, r);
    RunCoreExtends(s, [p] + [q] + [r], a);
    StagedIsHandedOver(s, RunCore(s, [p] + [q] + [r]), a);
  }
}
