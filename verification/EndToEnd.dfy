/** From packets on the wire to the files on disk: the receiver followed by the hole filler. */
module EndToEnd {
  import opened Bytes
  import opened FileIndex
  import opened Headers
  import opened LastFile
  import opened NumberRange
  import opened Options
  import opened Resequencer
  import opened Refinement
  import opened Window
  import opened WindowProofs

  /** A receiver for streams whose headers carry a running number. */
  function Recorder(kind: Kind, numElems: nat, packetSize: nat, stock: (nat, nat) -> Packet): Setup {
    Setup((p: Packet) => if |p| >= HeaderSize(kind) then Number(kind, p) else 0, numElems, packetSize, stock)
  }

  /** One recording: the packets that arrive, whether reception is stopped while waiting for one more, and
      for each file the packet count its writer reads from the file index, if there is an index. */
  datatype Session = Session(kind: Kind, setup: Setup, packets: seq<Packet>, waiting: bool, counted: nat -> Option<int>)

  ghost predicate WellFormed(x: Session) {
    && x.setup == Recorder(x.kind, x.setup.numElems, x.setup.packetSize, x.setup.stock)
    && x.setup.numElems > 0 && x.setup.packetSize >= HeaderSize(x.kind)
    && forall p :: p in x.packets ==> Usable(x.setup, p)
  }

  /** The assertion on the byte counter did not stop it. */
  ghost predicate Recordable(x: Session) {
    WellFormed(x) && !Overfull(x.setup, RunCore(x.setup, x.packets))
  }

  /** The window's view of the packets, and of the state in which reception stops. */
  function Stream(x: Session): seq<Arrival> {
    Arrivals(x.setup, x.packets)
  }

  function AtStop(x: Session): Win
    requires x.setup.Valid()
  {
    Stopped(x.setup.numElems, Stream(x), x.waiting)
  }

  /** Everything the writers are given, including the final flush. */
  function AllDelivered(x: Session): seq<Delivered>
    requires x.setup.Valid() && forall p :: p in x.packets ==> Usable(x.setup, p)
  {
    Flush(x.setup, StoppedCore(x.setup, x.packets, x.waiting)).out
  }

  function AllHanded(x: Session): seq<Handed>
    requires x.setup.Valid()
  {
    Finish(AtStop(x), x.setup.numElems).handed
  }

  lemma NotAborted(x: Session)
    requires Recordable(x)
    ensures !Aborted(Run(x.setup.numElems, Stream(x)), x.setup.numElems)
  {
    RunRefines(x.setup, x.packets);
    AbortedIsOverfull(x.setup, RunCore(x.setup, x.packets), Run(x.setup.numElems, Stream(x)));
  }

  lemma NoRepeatsIsRecordable(x: Session)
    requires WellFormed(x) && NoRepeats(Stream(x))
    ensures Recordable(x)
  {
    RunIsFaithful(x.setup.numElems, Stream(x));
    RunRefines(x.setup, x.packets);
    AbortedIsOverfull(x.setup, RunCore(x.setup, x.packets), Run(x.setup.numElems, Stream(x)));
  }

  lemma StopsFirst(x: Session)
    requires WellFormed(x) && AtStop(x).first.Some?
    ensures var c := StoppedCore(x.setup, x.packets, x.waiting);
      && c.firstPacket == RunCore(x.setup, x.packets).firstPacket
      && c.firstPacket.Some? && |c.firstPacket.value| == x.setup.packetSize
      && x.setup.number(c.firstPacket.value) == AtStop(x).first.value
  {
    StoppedMatches(x.setup, x.packets, x.waiting);
  }

  lemma DeliveredIsHanded(x: Session, j: nat)
    requires Recordable(x)
    ensures |AllDelivered(x)| == |AllHanded(x)|
    ensures j < |AllDelivered(x)| ==>
      var w, first := AtStop(x), RunCore(x.setup, x.packets).firstPacket;
      var d, h := AllDelivered(x)[j], AllHanded(x)[j];
      && w.first.Some? && first.Some? && |first.value| == x.setup.packetSize
      && x.setup.number(first.value) == w.first.value
      && DeliveredOk(x.setup, w.first.value, d, h) && h.id == j
      && Numbered(w.first.value, x.setup.numElems, j, h.file)
      && (j < w.id ==> h.written == x.setup.numElems) && (j >= w.id ==> h.written == w.cur.count)
  {
    var c, w := StoppedCore(x.setup, x.packets, x.waiting), AtStop(x);
    NotAborted(x);
    StoppedMatches(x.setup, x.packets, x.waiting);
    StoppedInv(x.setup.numElems, Stream(x), x.waiting);
    HandedInOrder(x.setup.numElems, Stream(x), x.waiting);
    FlushRefines(x.setup, c, w);
    OutOkAt(x.setup, First(w), AllDelivered(x), AllHanded(x), j);
    if w.first.Some? {
      StopsFirst(x);
    }
  }

  lemma SizedFile(s: Setup, first: int, id: int, memory: seq<Packet>, f: File, kind: Kind)
    requires HoldsFile(s, first, id, memory, f) && s.packetSize >= HeaderSize(kind)
    ensures WellSized(kind, memory) && |memory| == s.numElems
  {
    forall k | 0 <= k < |memory|
      ensures |memory[k]| >= HeaderSize(kind)
    {
      HoldsAt(s, first, id, memory, f, k);
    }
  }

  /** A packet stored at its slot passes the filler untouched, however far it goes. */
  lemma StoredSurvivesFilling(kind: Kind, s: Setup, first: Packet, id: nat, memory: seq<Packet>, f: File, k: nat,
                              upTo: nat)
    requires s == Recorder(kind, s.numElems, s.packetSize, s.stock) && s.packetSize >= HeaderSize(kind)
    requires |first| >= HeaderSize(kind) && HoldsFile(s, s.number(first), id, memory, f)
    requires Numbered(s.number(first), s.numElems, id, f) && k in f.slots
    requires s.number(f.slots[k].packet) == f.slots[k].num
    ensures k < |memory| && WellSized(kind, memory)
    ensures Filled(kind, first, FileStart(s.numElems, id), memory, upTo)[k] == f.slots[k].packet
  {
    SizedFile(s, s.number(first), id, memory, f, kind);
    HoldsAt(s, s.number(first), id, memory, f, k);
    BaseIsStart(Number(kind, first), s.numElems, id);
    NumberedSurvives(kind, first, FileStart(s.numElems, id), memory, upTo, k);
  }

  lemma NumberedSurvives(kind: Kind, first: Packet, start: int, memory: seq<Packet>, upTo: nat, k: nat)
    requires |first| >= HeaderSize(kind) && WellSized(kind, memory) && k < |memory|
    requires Number(kind, memory[k]) == Number(kind, first) + start + k
    ensures Filled(kind, first, start, memory, upTo)[k] == memory[k]
  {
    NumberCarries(kind, memory[k], first, start + k);
    FilledIsNumbered(kind, first, start, memory, upTo, k);
  }

  lemma BaseIsStart(first: int, n: nat, id: nat)
    ensures Base(first, n, id) == first + FileStart(n, id) >= first
  {
  }

  lemma NumberCarries(kind: Kind, p: Packet, first: Packet, offset: int)
    requires |p| >= HeaderSize(kind) && |first| >= HeaderSize(kind)
    requires Number(kind, p) == Number(kind, first) + offset
    ensures Carries(kind, p, first, offset)
  {
    NumberIsCongruent(kind, p);
    NumberIsCongruent(kind, first);
    ShiftedRemainder(Number(kind, first), Modulus(kind), offset);
  }

  lemma StoredIsReal(x: Session, j: nat, k: nat)
    requires x.setup.Valid() && j < |AllHanded(x)| && k in AllHanded(x)[j].file.slots
    ensures var a := AllHanded(x)[j].file.slots[k];
      a.packet in x.packets && a.num == x.setup.number(a.packet)
  {
    var n := x.setup.numElems;
    RunStoresArrivals(n, Stream(x));
    AdvanceFrom(Run(n, Stream(x)), n, Stream(x));
    FinishFrom(AtStop(x), n, Stream(x));
    assert From(AllHanded(x)[j].file, Stream(x));
    var i :| 0 <= i < |Stream(x)| && Stream(x)[i] == AllHanded(x)[j].file.slots[k];
    assert Stream(x)[i] == Arrived(x.setup, x.packets[i]);
  }

  // ---------- What reaches the disk ----------

  /** How far the filler goes in file j. */
  function Reached(x: Session, j: nat): nat {
    Visited(x.setup.numElems, x.counted(j), j)
  }

  /** The buffer of file j after the filler visited it; j is also the id the buffer carries. */
  ghost function FilledBuffer(x: Session, j: nat): (memory: seq<Packet>)
    requires Recordable(x) && j < |AllDelivered(x)|
    ensures |memory| == x.setup.numElems && WellSized(x.kind, memory)
  {
    DeliveredIsHanded(x, j);
    var d, first := AllDelivered(x)[j], RunCore(x.setup, x.packets).firstPacket.value;
    SizedFile(x.setup, x.setup.number(first), j, d.contents, AllHanded(x)[j].file, x.kind);
    Filled(x.kind, first, FileStart(x.setup.numElems, j), d.contents, Reached(x, j))
  }

  lemma FilledBufferIs(x: Session, j: nat)
    requires Recordable(x) && j < |AllDelivered(x)|
    ensures var d, first := AllDelivered(x)[j], RunCore(x.setup, x.packets).firstPacket;
      && d.id == j && first.Some? && |first.value| >= HeaderSize(x.kind)
      && WellSized(x.kind, d.contents) && |d.contents| == x.setup.numElems
      && FilledBuffer(x, j) == Filled(x.kind, first.value, FileStart(x.setup.numElems, j), d.contents, Reached(x, j))
  {
    DeliveredIsHanded(x, j);
    var d, first := AllDelivered(x)[j], RunCore(x.setup, x.packets).firstPacket.value;
    SizedFile(x.setup, x.setup.number(first), j, d.contents, AllHanded(x)[j].file, x.kind);
  }

  function Slots(bytes: nat, size: nat): nat
    requires size > 0
  {
    bytes / size
  }

  /** How many slots of file j are written: the writer is given a number of bytes. */
  function SlotsWritten(x: Session, j: nat): nat
    requires x.setup.Valid() && (forall p :: p in x.packets ==> Usable(x.setup, p)) && j < |AllDelivered(x)|
  {
    Slots(AllDelivered(x)[j].bytes, x.setup.packetSize)
  }

  lemma BytesAreSlots(size: nat, n: nat)
    requires size > 0
    ensures Slots(size * n, size) == n
  {
    ExactQuotient(n, size);
  }

  lemma HowManyDelivered(x: Session)
    requires Recordable(x)
    ensures |AllDelivered(x)| == AtStop(x).id + if AtStop(x).cur.count == 0 then 0 else 1
  {
    DeliveredIsHanded(x, 0);
    NotAborted(x);
    HandedInOrder(x.setup.numElems, Stream(x), x.waiting);
  }

  /** All files that were left are written whole, and the last as far as packets were counted. */
  lemma SlotsWrittenIs(x: Session, j: nat)
    requires Recordable(x) && j < |AllDelivered(x)|
    ensures j < |AllHanded(x)| && SlotsWritten(x, j) == AllHanded(x)[j].written <= x.setup.numElems
    ensures SlotsWritten(x, j) == if j < AtStop(x).id then x.setup.numElems else AtStop(x).cur.count
  {
    DeliveredIsHanded(x, j);
    BytesAreSlots(x.setup.packetSize, AllHanded(x)[j].written);
    NotAborted(x);
    StoppedInv(x.setup.numElems, Stream(x), x.waiting);
    HowManyDelivered(x);
  }

  /** File j on disk. */
  ghost function OnDisk(x: Session, j: nat): (disk: seq<Packet>)
    requires Recordable(x) && j < |AllDelivered(x)|
  {
    SlotsWrittenIs(x, j);
    FilledBuffer(x, j)[..SlotsWritten(x, j)]
  }

  // ---------- Numbering ----------

  /** The packets of a file, which starts `start` packets into the recording, carry consecutive numbers. */
  ghost predicate NumberedFrom(kind: Kind, disk: seq<Packet>, first: Packet, start: int) {
    && |first| >= HeaderSize(kind) && WellSized(kind, disk)
    && forall k :: 0 <= k < |disk| ==> Carries(kind, disk[k], first, start + k)
  }

  /** A slot carries the number of its place exactly when it was reached or the buffer had it there already;
      slots that were not reached are as they were. */
  ghost predicate NumberedWhereReached(kind: Kind, disk: seq<Packet>, first: Packet, start: int, buffer: seq<Packet>,
                                       reached: nat) {
    && |first| >= HeaderSize(kind) && WellSized(kind, disk) && WellSized(kind, buffer) && |disk| <= |buffer|
    && forall k :: 0 <= k < |disk| ==>
         && (Carries(kind, disk[k], first, start + k) <==> k < reached || Carries(kind, buffer[k], first, start + k))
         && (k >= reached ==> disk[k] == buffer[k])
  }

  lemma FilledWhereReached(kind: Kind, first: Packet, start: int, buffer: seq<Packet>, reached: nat, n: nat,
                           disk: seq<Packet>)
    requires |first| >= HeaderSize(kind) && WellSized(kind, buffer) && n <= |buffer|
    requires disk == Filled(kind, first, start, buffer, reached)[..n]
    ensures NumberedWhereReached(kind, disk, first, start, buffer, reached)
  {
    forall k | 0 <= k < n
      ensures |disk[k]| >= HeaderSize(kind) && (k >= reached ==> disk[k] == buffer[k])
      ensures Carries(kind, disk[k], first, start + k) <==> k < reached || Carries(kind, buffer[k], first, start + k)
    {
      FilledIsNumberedIff(kind, first, start, buffer, reached, k, Filled(kind, first, start, buffer, reached));
    }
  }

  /** Whatever arrived, in whatever order: slot k of file j on disk carries the number that is n*j + k after
      that of the first packet if and only if the filler reached the slot or a packet with that number was in
      the buffer there; a slot the filler did not reach is written as it was. */
  lemma SlotsAreNumberedIff(x: Session, j: nat, first: Packet)
    requires Recordable(x) && j < |AllDelivered(x)| && RunCore(x.setup, x.packets).firstPacket == Some(first)
    ensures NumberedWhereReached(x.kind, OnDisk(x, j), first, FileStart(x.setup.numElems, j),
                                 AllDelivered(x)[j].contents, Reached(x, j))
  {
    FilledBufferIs(x, j);
    SlotsWrittenIs(x, j);
    FilledWhereReached(x.kind, first, FileStart(x.setup.numElems, j), AllDelivered(x)[j].contents, Reached(x, j),
                       SlotsWritten(x, j), OnDisk(x, j));
  }

  lemma ReachedIsNumbered(kind: Kind, disk: seq<Packet>, first: Packet, start: int, buffer: seq<Packet>, reached: nat)
    requires NumberedWhereReached(kind, disk, first, start, buffer, reached) && |disk| <= reached
    ensures NumberedFrom(kind, disk, first, start)
  {
  }

  /** A file the filler goes through as far as it is written is numbered without a gap. */
  lemma FilesAreNumbered(x: Session, j: nat, first: Packet)
    requires Recordable(x) && j < |AllDelivered(x)| && SlotsWritten(x, j) <= Reached(x, j)
    requires RunCore(x.setup, x.packets).firstPacket == Some(first)
    ensures NumberedFrom(x.kind, OnDisk(x, j), first, FileStart(x.setup.numElems, j))
  {
    SlotsAreNumberedIff(x, j, first);
    SlotsWrittenIs(x, j);
    ReachedIsNumbered(x.kind, OnDisk(x, j), first, FileStart(x.setup.numElems, j), AllDelivered(x)[j].contents,
                      Reached(x, j));
  }

  /** Every slot of the file that was reached without carrying the number of its place is written over. */
  ghost predicate HolesHaveHeader(kind: Kind, disk: seq<Packet>, first: Packet, start: int, buffer: seq<Packet>,
                                  reached: nat) {
    && |first| >= HeaderSize(kind) && WellSized(kind, buffer) && |disk| <= |buffer|
    && forall k :: 0 <= k < |disk| && k < reached && !Carries(kind, buffer[k], first, start + k) ==>
         WrittenOver(kind, first, buffer[k], disk[k])
  }

  lemma FilledHolesHaveHeader(kind: Kind, first: Packet, start: int, buffer: seq<Packet>, reached: nat, n: nat,
                              disk: seq<Packet>)
    requires |first| >= HeaderSize(kind) && WellSized(kind, buffer) && n <= |buffer|
    requires disk == Filled(kind, first, start, buffer, reached)[..n]
    ensures HolesHaveHeader(kind, disk, first, start, buffer, reached)
  {
    forall k | 0 <= k < n && k < reached && !Carries(kind, buffer[k], first, start + k)
      ensures WrittenOver(kind, first, buffer[k], disk[k])
    {
      HoleGetsFirstHeader(kind, first, start, buffer, reached, k, Filled(kind, first, start, buffer, reached));
    }
  }

  /** On disk, every hole the filler reached has the header of the very first packet received, but for the number,
      and the payload the buffer had. */
  lemma HolesHaveFirstHeader(x: Session, j: nat)
    requires Recordable(x) && x.packets != [] && j < |AllDelivered(x)|
    ensures HolesHaveHeader(x.kind, OnDisk(x, j), x.packets[0], FileStart(x.setup.numElems, j),
                            AllDelivered(x)[j].contents, Reached(x, j))
  {
    FirstPacketIs(x.setup, x.packets);
    FilledBufferIs(x, j);
    SlotsWrittenIs(x, j);
    FilledHolesHaveHeader(x.kind, x.packets[0], FileStart(x.setup.numElems, j), AllDelivered(x)[j].contents,
                          Reached(x, j), SlotsWritten(x, j), OnDisk(x, j));
  }

  // ---------- What the writers read from the file index ----------

  /** The count in the index while the first t packets were received. */
  function IndexAfter(x: Session, t: nat): int
    requires x.setup.Valid() && (forall p :: p in x.packets ==> Usable(x.setup, p)) && t <= |x.packets|
  {
    RunCore(x.setup, x.packets[..t]).indexed
  }

  function IndexInTheEnd(x: Session): int
    requires x.setup.Valid() && forall p :: p in x.packets ==> Usable(x.setup, p)
  {
    Flush(x.setup, StoppedCore(x.setup, x.packets, x.waiting)).indexed
  }

  /** A count that the writer of file j can read: one the index has at some time after the file was handed
      over. Files are handed over during the run, or before the last count is added, or after it. */
  ghost predicate CanRead(x: Session, j: nat, count: int)
    requires WellFormed(x)
  {
    var c := StoppedCore(x.setup, x.packets, x.waiting);
    || count == IndexInTheEnd(x)
    || (j < |FlushBefore(x.setup, c).out| && count == c.indexed)
    || exists t :: 0 <= t <= |x.packets| && j < |RunCore(x.setup, x.packets[..t]).out| && count == IndexAfter(x, t)
  }

  lemma IndexIs(x: Session)
    requires Recordable(x)
    ensures forall t :: 0 <= t <= |x.packets| ==>
      IndexAfter(x, t) == Whole(x.setup.numElems, FilesPassed(x.setup.numElems, Stream(x)[..t]))
    ensures StoppedCore(x.setup, x.packets, x.waiting).indexed
         == Whole(x.setup.numElems, PassedAtStop(x.setup.numElems, Stream(x), x.waiting))
    ensures IndexInTheEnd(x) == FinalCount(x.setup.numElems, Stream(x), x.waiting)
  {
    forall t | 0 <= t <= |x.packets|
      ensures IndexAfter(x, t) == Whole(x.setup.numElems, FilesPassed(x.setup.numElems, Stream(x)[..t]))
    {
      RunIndexes(x.setup, x.packets[..t]);
      assert Arrivals(x.setup, x.packets[..t]) == Stream(x)[..t];
    }
    StoppedIndexes(x.setup, x.packets, x.waiting);
    FlushIndexes(x.setup, x.packets, x.waiting);
  }

  lemma WholeIsMonotone(n: nat, m: nat, k: nat)
    requires m <= k
    ensures Whole(n, m) <= Whole(n, k)
  {
    if m < k {
      WholeGrows(n, m, k);
    }
  }

  /** The index only grows. */
  lemma ReadIsAtMostFinal(x: Session, j: nat, count: int)
    requires Recordable(x) && CanRead(x, j, count)
    ensures count <= IndexInTheEnd(x)
  {
    var n := x.setup.numElems;
    NotAborted(x);
    StoppedInv(n, Stream(x), x.waiting);
    PositionInFile(AtStop(x), n);
    IndexIs(x);
    forall t | 0 <= t <= |x.packets|
      ensures IndexAfter(x, t) <= Whole(n, PassedAtStop(n, Stream(x), x.waiting))
    {
      FilesOnlyGrow(n, Stream(x), t);
      WholeIsMonotone(n, FilesPassed(n, Stream(x)[..t]), PassedAtStop(n, Stream(x), x.waiting));
    }
  }

  /** Once a packet has run ahead, the last file is not visited at all, whenever its writer looks. */
  lemma JumpedLeavesLastFile(x: Session, count: int)
    requires Recordable(x) && FilesJumped(x.setup.numElems, Stream(x)) > 0
    ensures |AllDelivered(x)| > 0 && SlotsWritten(x, |AllDelivered(x)| - 1) > 0
    ensures CanRead(x, |AllDelivered(x)| - 1, count) ==>
      Visited(x.setup.numElems, Some(count), |AllDelivered(x)| - 1) == 0
  {
    var n := x.setup.numElems;
    NotAborted(x);
    StoppedInv(n, Stream(x), x.waiting);
    StoppedIsOpened(n, Stream(x), x.waiting);
    HowManyDelivered(x);
    var j := |AllDelivered(x)| - 1;
    SlotsWrittenIs(x, j);
    VisitedInTheEnd(n, Stream(x), x.waiting, j);
    IndexIs(x);
    if CanRead(x, j, count) {
      ReadIsAtMostFinal(x, j, count);
      VisitedGrows(n, count, IndexInTheEnd(x), j);
    }
  }

  /** A file left by passing its last number is counted by then. */
  lemma LeftIsVisited(n: nat, m: nat, j: nat)
    requires n > 0 && j < m
    ensures Visited(n, Some(Whole(n, m)), j) == n
  {
    VisitedIs(n, m, 0, j);
  }

  lemma HandedAfter(x: Session, t: nat)
    requires Recordable(x) && t <= |x.packets|
    ensures |RunCore(x.setup, x.packets[..t]).out| <= Run(x.setup.numElems, Stream(x)[..t]).id
  {
    var n := x.setup.numElems;
    RunRefines(x.setup, x.packets[..t]);
    assert Arrivals(x.setup, x.packets[..t]) == Stream(x)[..t];
    var c, w := RunCore(x.setup, x.packets[..t]), Run(n, Stream(x)[..t]);
    OutOkAt(x.setup, First(w), c.out, w.handed, 0);
    RunKeepsInv(n, Stream(x)[..t]);
  }

  lemma HandedAtStop(x: Session)
    requires Recordable(x)
    ensures |FlushBefore(x.setup, StoppedCore(x.setup, x.packets, x.waiting)).out| == AtStop(x).id
  {
    var c, w := StoppedCore(x.setup, x.packets, x.waiting), AtStop(x);
    NotAborted(x);
    StoppedInv(x.setup.numElems, Stream(x), x.waiting);
    StoppedMatches(x.setup, x.packets, x.waiting);
    OutOkAt(x.setup, First(w), c.out, w.handed, 0);
  }

  /** If no packet ran ahead, the index counts a file before it is handed over. */
  lemma NoJumpVisitsAll(x: Session, j: nat, count: int)
    requires Recordable(x) && FilesJumped(x.setup.numElems, Stream(x)) == 0 && j < AtStop(x).id && CanRead(x, j, count)
    ensures Visited(x.setup.numElems, Some(count), j) == x.setup.numElems
  {
    var n, c := x.setup.numElems, StoppedCore(x.setup, x.packets, x.waiting);
    IndexIs(x);
    StoppedIsOpened(n, Stream(x), x.waiting);
    if count == IndexInTheEnd(x) {
      NotAborted(x);
      StoppedInv(n, Stream(x), x.waiting);
      VisitedInTheEnd(n, Stream(x), x.waiting, j);
    } else if j < |FlushBefore(x.setup, c).out| && count == c.indexed {
      LeftIsVisited(n, PassedAtStop(n, Stream(x), x.waiting), j);
    } else {
      var t :| 0 <= t <= |x.packets| && j < |RunCore(x.setup, x.packets[..t]).out| && count == IndexAfter(x, t);
      HandedAfter(x, t);
      FilesOnlyGrow(n, Stream(x), t);
      FilesAreOpened(n, Stream(x)[..t]);
      LeftIsVisited(n, FilesPassed(n, Stream(x)[..t]), j);
    }
  }

  /** The file open at the end is handed over after the last count. */
  lemma LastFileReadsFinal(x: Session, count: int)
    requires Recordable(x) && AtStop(x).cur.count > 0 && CanRead(x, AtStop(x).id, count)
    ensures count == IndexInTheEnd(x)
  {
    HandedAtStop(x);
    forall t | 0 <= t <= |x.packets|
      ensures |RunCore(x.setup, x.packets[..t]).out| <= AtStop(x).id
    {
      HandedAfter(x, t);
      FilesAreOpened(x.setup.numElems, Stream(x)[..t]);
      FilesOnlyGrow(x.setup.numElems, Stream(x), t);
      StoppedIsOpened(x.setup.numElems, Stream(x), x.waiting);
    }
  }

  /** Whatever its writer reads, the filler goes through the file as far as it is written. */
  ghost predicate AlwaysCovered(x: Session, j: nat)
    requires Recordable(x) && j < |AllDelivered(x)|
  {
    forall count :: CanRead(x, j, count) ==> SlotsWritten(x, j) <= Visited(x.setup.numElems, Some(count), j)
  }

  lemma FileIsCovered(x: Session, j: nat)
    requires Recordable(x) && j < |AllDelivered(x)|
    requires FilesJumped(x.setup.numElems, Stream(x)) == 0
    requires AtStop(x).cur.count <= Position(AtStop(x), x.setup.numElems)
    ensures AlwaysCovered(x, j)
  {
    var n := x.setup.numElems;
    SlotsWrittenIs(x, j);
    forall count | CanRead(x, j, count)
      ensures SlotsWritten(x, j) <= Visited(n, Some(count), j)
    {
      if j < AtStop(x).id {
        NoJumpVisitsAll(x, j, count);
      } else {
        LastIsVisited(x, j, count);
      }
    }
  }

  lemma LastIsVisited(x: Session, j: nat, count: int)
    requires Recordable(x) && AtStop(x).id <= j < |AllDelivered(x)| && CanRead(x, j, count)
    requires FilesJumped(x.setup.numElems, Stream(x)) == 0
    ensures Visited(x.setup.numElems, Some(count), j) == Position(AtStop(x), x.setup.numElems)
  {
    var n := x.setup.numElems;
    HowManyDelivered(x);
    LastFileReadsFinal(x, count);
    IndexIs(x);
    StoppedIsOpened(n, Stream(x), x.waiting);
    NotAborted(x);
    StoppedInv(n, Stream(x), x.waiting);
    VisitedInTheEnd(n, Stream(x), x.waiting, j);
  }

  lemma JumpedIsNotCovered(x: Session)
    requires Recordable(x) && FilesJumped(x.setup.numElems, Stream(x)) > 0
    ensures |AllDelivered(x)| > 0 && !AlwaysCovered(x, |AllDelivered(x)| - 1)
  {
    JumpedLeavesLastFile(x, IndexInTheEnd(x));
    assert CanRead(x, |AllDelivered(x)| - 1, IndexInTheEnd(x));
  }

  lemma OvercountedIsNotCovered(x: Session)
    requires Recordable(x) && FilesJumped(x.setup.numElems, Stream(x)) == 0
    requires AtStop(x).cur.count > Position(AtStop(x), x.setup.numElems)
    ensures AtStop(x).id < |AllDelivered(x)| && !AlwaysCovered(x, AtStop(x).id)
  {
    var n, w := x.setup.numElems, AtStop(x);
    NotAborted(x);
    StoppedInv(n, Stream(x), x.waiting);
    PositionInFile(w, n);
    HowManyDelivered(x);
    SlotsWrittenIs(x, w.id);
    IndexIs(x);
    StoppedIsOpened(n, Stream(x), x.waiting);
    VisitedInTheEnd(n, Stream(x), x.waiting, w.id);
    assert CanRead(x, w.id, IndexInTheEnd(x));
  }

  /** With a file index: whenever the writers look at it, the filler goes through all that is written of all
      files if and only if no file was opened by a packet running ahead and the last file does not count more
      packets than its receive position. */
  lemma AllCoveredIff(x: Session)
    requires Recordable(x)
    ensures (forall j :: 0 <= j < |AllDelivered(x)| ==> AlwaysCovered(x, j))
       <==> FilesJumped(x.setup.numElems, Stream(x)) == 0
            && AtStop(x).cur.count <= Position(AtStop(x), x.setup.numElems)
  {
    if FilesJumped(x.setup.numElems, Stream(x)) > 0 {
      JumpedIsNotCovered(x);
    } else if AtStop(x).cur.count > Position(AtStop(x), x.setup.numElems) {
      OvercountedIsNotCovered(x);
    } else {
      forall j | 0 <= j < |AllDelivered(x)|
        ensures AlwaysCovered(x, j)
      {
        FileIsCovered(x, j);
      }
    }
  }

  /** Without repeats the last file never counts too many. */
  lemma CountedWithinPosition(x: Session)
    requires Recordable(x) && NoRepeats(Stream(x))
    ensures AtStop(x).cur.count <= Position(AtStop(x), x.setup.numElems)
  {
    var n, w := x.setup.numElems, AtStop(x);
    RunIsFaithful(n, Stream(x));
    AdvanceFaithful(Run(n, Stream(x)), n, Stream(x));
    NotAborted(x);
    StoppedInv(n, Stream(x), x.waiting);
    PositionInFile(w, n);
    if w.first.Some? {
      SlotsFit(w.cur, Position(w, n));
    }
  }

  /** The same, told from the packets: if no number repeats and disorder stays within one file, every file is
      gone through as far as it is written if and only if no packet belongs to a later file than is due. */
  lemma OrderlyIsCoveredIff(x: Session)
    requires WellFormed(x) && NoRepeats(Stream(x)) && Orderly(x.setup.numElems, Stream(x))
    ensures Recordable(x)
    ensures (forall j :: 0 <= j < |AllDelivered(x)| ==> AlwaysCovered(x, j))
       <==> NeverAhead(x.setup.numElems, Stream(x))
  {
    NoRepeatsIsRecordable(x);
    CountedWithinPosition(x);
    AllCoveredIff(x);
    NoneJumpedIff(x.setup.numElems, Stream(x));
  }

  /** With or without a file index: a recording without repeats, with disorder within one file and no packet of
      a later file than is due, is numbered without a gap in all its files, whatever was lost. */
  lemma RecordingIsNumbered(x: Session, first: Packet, j: nat)
    requires WellFormed(x) && NoRepeats(Stream(x)) && Orderly(x.setup.numElems, Stream(x))
    requires NeverAhead(x.setup.numElems, Stream(x)) && RunCore(x.setup, x.packets).firstPacket == Some(first)
    requires j < |AllDelivered(x)| && (x.counted(j).Some? ==> CanRead(x, j, x.counted(j).value))
    ensures Recordable(x) && NumberedFrom(x.kind, OnDisk(x, j), first, FileStart(x.setup.numElems, j))
  {
    OrderlyIsCoveredIff(x);
    SlotsWrittenIs(x, j);
    assert AlwaysCovered(x, j);
    FilesAreNumbered(x, j, first);
  }

  /** Packets 0, 4 and 7 with three slots per file: at no time does a writer read a count by which slot 2 of
      file 0 or any slot of files 1 and 2 is visited. */
  lemma AheadIsNeverVisited(x: Session, p: Packet, q: Packet, r: Packet, j: nat, count: int)
    requires Recordable(x) && x.setup.numElems == 3 && x.packets == [p] + [q] + [r] && CanRead(x, j, count)
    requires x.setup.number(p) == 0 && x.setup.number(q) == 4 && x.setup.number(r) == 7
    ensures |AllDelivered(x)| == 3
    ensures Visited(3, Some(count), j) <= if j == 0 then 2 else 0
  {
    AheadAtStop(x, p, q, r);
    ReadIsAtMostFinal(x, j, count);
    VisitedIs(3, 0, 2, j);
    VisitedGrows(3, count, 2, j);
  }

  lemma AheadAtStop(x: Session, p: Packet, q: Packet, r: Packet)
    requires Recordable(x) && x.setup.numElems == 3 && x.packets == [p] + [q] + [r]
    requires x.setup.number(p) == 0 && x.setup.number(q) == 4 && x.setup.number(r) == 7
    ensures |AllDelivered(x)| == 3 && IndexInTheEnd(x) == 2
  {
    assert Stream(x) == [Arrival(0, p)] + [Arrival(4, q)] + [Arrival(7, r)];
    AheadIsNotCounted(p, q, r, x.waiting);
    IndexIs(x);
    HowManyDelivered(x);
  }

  // ---------- What is recorded ----------

  lemma AcceptedIsInBuffer(x: Session, j: nat, k: nat)
    requires Recordable(x) && j < |AllHanded(x)| && k in AllHanded(x)[j].file.slots
    ensures j < |AllDelivered(x)| && k < x.setup.numElems
    ensures FilledBuffer(x, j)[k] == AllHanded(x)[j].file.slots[k].packet
  {
    DeliveredIsHanded(x, j);
    StoredIsReal(x, j, k);
    FilledBufferIs(x, j);
    var d, first := AllDelivered(x)[j], RunCore(x.setup, x.packets).firstPacket.value;
    StoredSurvivesFilling(x.kind, x.setup, first, j, d.contents, AllHanded(x)[j].file, k, Reached(x, j));
  }

  /** Every packet accepted into a file is on disk at its slot, byte for byte, however far the filler went, if
      and only if the file is written that far; only the last file may not be. */
  lemma AcceptedIsOnDisk(x: Session, j: nat, k: nat)
    requires Recordable(x) && j < |AllHanded(x)| && k in AllHanded(x)[j].file.slots
    ensures j < |AllDelivered(x)|
    ensures k < |OnDisk(x, j)| <==> j < AtStop(x).id || k < AtStop(x).cur.count
    ensures k < |OnDisk(x, j)| ==> OnDisk(x, j)[k] == AllHanded(x)[j].file.slots[k].packet
  {
    AcceptedIsInBuffer(x, j, k);
    SlotsWrittenIs(x, j);
  }

  /** Packet t is on disk, byte for byte, in the file and slot its number demands. */
  ghost predicate Recorded(x: Session, t: nat)
    requires Recordable(x) && t < |x.packets|
  {
    var first, num := x.setup.number(x.packets[0]), x.setup.number(x.packets[t]);
    var f, k := FileOf(first, x.setup.numElems, num), SlotOf(first, x.setup.numElems, num);
    0 <= f < |AllDelivered(x)| && k < |OnDisk(x, f)| && OnDisk(x, f)[k] == x.packets[t]
  }

  lemma HandedOutIsRecordedIff(x: Session, t: nat, f: int, k: nat)
    requires Recordable(x) && t < |x.packets|
    requires HandedOut(AllHanded(x), Stream(x)[0].num, x.setup.numElems, Stream(x)[t])
    requires f == FileOf(Stream(x)[0].num, x.setup.numElems, Stream(x)[t].num)
    requires k == SlotOf(Stream(x)[0].num, x.setup.numElems, Stream(x)[t].num)
    ensures Recorded(x, t) <==> f < AtStop(x).id || k < AtStop(x).cur.count
  {
    AcceptedIsOnDisk(x, f, k);
  }

  lemma TrackedIsRecordedIff(x: Session, t: nat, f: int, k: nat)
    requires WellFormed(x) && NoRepeats(Stream(x)) && Orderly(x.setup.numElems, Stream(x)) && t < |x.packets|
    requires f == FileOf(x.setup.number(x.packets[0]), x.setup.numElems, x.setup.number(x.packets[t]))
    requires k == SlotOf(x.setup.number(x.packets[0]), x.setup.numElems, x.setup.number(x.packets[t]))
    ensures Recordable(x)
    ensures Recorded(x, t) <==> f < LastOpen(x.setup.numElems, Stream(x), x.waiting) || k < AtStop(x).cur.count
  {
    NoRepeatsIsRecordable(x);
    BoundedDisorderLosesNothing(x.setup.numElems, Stream(x), x.waiting);
    assert Stream(x)[t] in Stream(x);
    HandedOutIsRecordedIff(x, t, f, k);
    LastOpenIs(x.setup.numElems, Stream(x), x.waiting);
  }

  /** If no number repeats and disorder stays within one file, a packet is on disk unless it belongs to the
      file open at the end, in a slot at or behind the number of packets received for that file. */
  lemma PacketIsRecordedIff(x: Session, t: nat, f: int, k: nat, open: int)
    requires WellFormed(x) && NoRepeats(Stream(x)) && Orderly(x.setup.numElems, Stream(x)) && t < |x.packets|
    requires f == FileOf(x.setup.number(x.packets[0]), x.setup.numElems, x.setup.number(x.packets[t]))
    requires k == SlotOf(x.setup.number(x.packets[0]), x.setup.numElems, x.setup.number(x.packets[t]))
    requires open == LastOpen(x.setup.numElems, Stream(x), x.waiting)
    ensures Recordable(x)
    ensures Recorded(x, t) <==> f < open || k < CountIn(Stream(x)[0].num, x.setup.numElems, Stream(x), open)
  {
    TrackedIsRecordedIff(x, t, f, k);
    OpenCountIs(x.setup.numElems, Stream(x), x.waiting);
  }

  /** Its slot in the file open at the end, if that is where the packet belongs. */
  lemma InLastFileIff(x: Session, t: nat, k: nat)
    requires WellFormed(x) && NoRepeats(Stream(x)) && Orderly(x.setup.numElems, Stream(x)) && t < |x.packets|
    requires k < x.setup.numElems && AtStop(x).first.Some?
    requires Stream(x)[t].num == Base(AtStop(x).first.value, x.setup.numElems, AtStop(x).id) + k
    ensures Recordable(x)
    ensures Recorded(x, t) <==> k < AtStop(x).cur.count
  {
    var n := x.setup.numElems;
    StoppedTracks(n, Stream(x), x.waiting);
    HomeIsUnique(Stream(x)[0].num, n, Stream(x)[t].num, AtStop(x).id, k);
    LastOpenIs(n, Stream(x), x.waiting);
    TrackedIsRecordedIff(x, t, AtStop(x).id, k);
  }

  /** A packet that is not on disk sits in the file open at the end, behind its count. */
  lemma UnrecordedIsCutOff(x: Session, t: nat)
    requires WellFormed(x) && NoRepeats(Stream(x)) && Orderly(x.setup.numElems, Stream(x)) && t < |x.packets|
    ensures Recordable(x)
    ensures Recorded(x, t) || exists k :: k in AtStop(x).cur.slots && k >= AtStop(x).cur.count
  {
    var n, w, a := x.setup.numElems, AtStop(x), Stream(x)[t];
    var f, k := FileOf(Stream(x)[0].num, n, a.num), SlotOf(Stream(x)[0].num, n, a.num);
    StoppedTracks(n, Stream(x), x.waiting);
    LastOpenIs(n, Stream(x), x.waiting);
    TrackedIsRecordedIff(x, t, f, k);
    assert Placed(w, n, a);
    if !Recorded(x, t) {
      assert k in w.cur.slots && k >= w.cur.count;
    }
  }

  lemma CutOffIsUnrecorded(x: Session)
    requires WellFormed(x) && NoRepeats(Stream(x)) && Orderly(x.setup.numElems, Stream(x)) && x.packets != []
    requires exists k :: k in AtStop(x).cur.slots && k >= AtStop(x).cur.count
    ensures Recordable(x)
    ensures exists t :: 0 <= t < |x.packets| && !Recorded(x, t)
  {
    var k :| k in AtStop(x).cur.slots && k >= AtStop(x).cur.count;
    NoRepeatsIsRecordable(x);
    StoppedTracks(x.setup.numElems, Stream(x), x.waiting);
    SlotArrived(AtStop(x), Stream(x), k);
    var t :| 0 <= t < |x.packets| && Stream(x)[t] == AtStop(x).cur.slots[k];
    InLastFileIff(x, t, k);
  }

  lemma SlotArrived(w: Win, arrivals: seq<Arrival>, k: nat)
    requires Faithful(w, arrivals) && k in w.cur.slots
    ensures exists t :: 0 <= t < |arrivals| && arrivals[t] == w.cur.slots[k]
  {
    assert w.cur.slots[k] in arrivals;
  }

  /** The whole pipeline. If no number repeats and disorder stays within one file, every packet received is on
      disk, byte for byte, in the file and slot its number demands, if and only if no number of the file open
      at the end is missing in front of the newest. */
  lemma RecordingIsCompleteIff(x: Session)
    requires WellFormed(x) && x.packets != [] && NoRepeats(Stream(x)) && Orderly(x.setup.numElems, Stream(x))
    ensures Recordable(x)
    ensures (forall t :: 0 <= t < |x.packets| ==> Recorded(x, t))
       <==> NoGapAtTheEnd(x.setup.numElems, Stream(x), x.waiting)
  {
    var n, w := x.setup.numElems, AtStop(x);
    NoRepeatsIsRecordable(x);
    LastFileIsWholeIff(n, Stream(x), x.waiting);
    StoppedTracks(n, Stream(x), x.waiting);
    if forall k :: k in w.cur.slots ==> k < w.cur.count {
      forall t | 0 <= t < |x.packets|
        ensures Recorded(x, t)
      {
        UnrecordedIsCutOff(x, t);
      }
    } else {
      CutOffIsUnrecorded(x);
    }
  }

  /** The shortest recording: a stream of one packet leaves one file with that packet in it. */
  lemma OnePacketIsRecorded(x: Session, p: Packet)
    requires WellFormed(x) && x.packets == [p]
    ensures Recordable(x) && |AllDelivered(x)| == 1 && OnDisk(x, 0) == [p]
  {
    var a := Arrived(x.setup, p);
    assert Stream(x) == [a];
    OneHanded(x.setup.numElems, a, x.waiting);
    NoRepeatsIsRecordable(x);
    DeliveredIsHanded(x, 0);
    AcceptedIsOnDisk(x, 0, 0);
    SlotsWrittenIs(x, 0);
  }

  lemma OneHanded(n: nat, a: Arrival, waiting: bool)
    requires n > 0
    ensures Finish(Stopped(n, [a], waiting), n).handed == [Handed(0, 1, Put(EMPTY, 0, a))]
  {
    FirstArrival(n, a);
  }

  /** The numbers of the packets, as the fields have them, count up by one from the first. */
  ghost predicate FieldsCountUp(kind: Kind, packets: seq<Packet>) {
    WellSized(kind, packets)
    && forall t :: 0 <= t < |packets| ==> Carries(kind, packets[t], packets[0], t)
  }

  lemma FieldsAreShown(x: Session)
    requires WellFormed(x) && FieldsCountUp(x.kind, x.packets)
    ensures CountsUp(Modulus(x.kind), Stream(x))
  {
    forall t | 0 <= t < |Stream(x)|
      ensures Stream(x)[t].num == Shown(Modulus(x.kind), Stream(x)[0].num + t)
    {
      NumberIsCongruent(x.kind, x.packets[0]);
      ShiftedRemainder(Number(x.kind, x.packets[0]), Modulus(x.kind), t);
    }
  }

  lemma NumbersFit(x: Session)
    requires WellFormed(x) && 0 < |x.packets| <= Modulus(x.kind)
    ensures Fits(Modulus(x.kind), Stream(x))
  {
    assert x.packets[0] in x.packets;
    NumberInRange(x.kind, x.packets[0]);
  }

  lemma OlderIsNotRecorded(x: Session, t: nat)
    requires Recordable(x) && t < |x.packets| && Stream(x)[t].num < Stream(x)[0].num
    ensures !Recorded(x, t)
  {
    var first, n, num := Stream(x)[0].num, x.setup.numElems, Stream(x)[t].num;
    Home(first, n, num);
    if FileOf(first, n, num) >= 0 {
      BaseNotBefore(first, n, FileOf(first, n, num));
    }
  }

  /** In which state reception stops when the packets from t on were dropped as older than the first. */
  lemma StopsAfterTail(x: Session, t: nat)
    requires Recordable(x) && FieldsCountUp(x.kind, x.packets) && 0 < |x.packets| <= Modulus(x.kind)
    requires Fits(Modulus(x.kind), Stream(x)) && t == Room(Modulus(x.kind), Stream(x)) < |x.packets|
    ensures AtStop(x) == Dropped(Stopped(x.setup.numElems, Stream(x)[..t], true), |x.packets| - t)
  {
    FieldsAreShown(x);
    PrefixInRange(Modulus(x.kind), Stream(x), t);
    BeforeTheTail(x.setup.numElems, Stream(x)[..t]);
    BeyondRangeIsDropped(Modulus(x.kind), x.setup.numElems, Stream(x), t);
  }

  /** Every packet of a stream without gaps is in a slot that is written. */
  lemma ConsecutiveIsWritten(n: nat, init: seq<Arrival>, u: nat, f: int, k: nat)
    requires n > 0 && u < |init| && Consecutive(init) && NoRepeats(init)
    requires f == FileOf(init[0].num, n, init[u].num) && k == SlotOf(init[0].num, n, init[u].num)
    ensures var w := Stopped(n, init, true);
      && HandedOut(Finish(w, n).handed, init[0].num, n, init[u])
      && (f < w.id || k < w.cur.count)
  {
    ConsecutiveIsOrderly(n, init);
    ConsecutiveHasNoGap(n, init, true);
    LastFileIsWholeIff(n, init, true);
    BoundedDisorderLosesNothing(n, init, true);
    StoppedTracks(n, init, true);
    assert init[u] in init;
    assert Placed(Stopped(n, init, true), n, init[u]);
  }

  lemma DroppedHandsOver(w: Win, n: nat, k: nat)
    ensures Finish(Dropped(w, k), n).handed == Finish(w, n).handed
  {
  }

  lemma RecordedAsAtStop(x: Session, w: Win, k: nat, u: nat, f: int, slot: nat)
    requires Recordable(x) && u < |x.packets| && AtStop(x) == Dropped(w, k)
    requires f == FileOf(Stream(x)[0].num, x.setup.numElems, Stream(x)[u].num)
    requires slot == SlotOf(Stream(x)[0].num, x.setup.numElems, Stream(x)[u].num)
    requires HandedOut(Finish(w, x.setup.numElems).handed, Stream(x)[0].num, x.setup.numElems, Stream(x)[u])
    requires f < w.id || slot < w.cur.count
    ensures Recorded(x, u)
  {
    DroppedHandsOver(w, x.setup.numElems, k);
    HandedOutIsRecordedIff(x, u, f, slot);
  }

  lemma BeforeTailIsRecorded(x: Session, t: nat, u: nat)
    requires Recordable(x) && FieldsCountUp(x.kind, x.packets) && 0 < |x.packets| <= Modulus(x.kind)
    requires Fits(Modulus(x.kind), Stream(x)) && t == Room(Modulus(x.kind), Stream(x)) < |x.packets| && u < t
    ensures Recorded(x, u)
  {
    var n, init := x.setup.numElems, Stream(x)[..t];
    FieldsAreShown(x);
    PrefixInRange(Modulus(x.kind), Stream(x), t);
    StopsAfterTail(x, t);
    var f, k := FileOf(Stream(x)[0].num, n, Stream(x)[u].num), SlotOf(Stream(x)[0].num, n, Stream(x)[u].num);
    assert init[u] == Stream(x)[u];
    ConsecutiveIsWritten(n, init, u, f, k);
    RecordedAsAtStop(x, Stopped(n, init, true), |x.packets| - t, u, f, k);
  }

  lemma AllInRangeIsRecorded(x: Session, u: nat)
    requires Recordable(x) && FieldsCountUp(x.kind, x.packets) && 0 < |x.packets| <= Modulus(x.kind)
    requires Fits(Modulus(x.kind), Stream(x)) && |x.packets| <= Room(Modulus(x.kind), Stream(x)) && u < |x.packets|
    ensures Recorded(x, u)
  {
    FieldsAreShown(x);
    CountingRepeatsNothing(Modulus(x.kind), Stream(x));
    ConsecutiveInRange(Modulus(x.kind), Stream(x));
    ConsecutiveIsOrderly(x.setup.numElems, Stream(x));
    ConsecutiveHasNoGap(x.setup.numElems, Stream(x), x.waiting);
    RecordingIsCompleteIff(x);
  }

  /** Of a stream without loss or reordering exactly the packets are recorded whose numbers stay in the range of
      a signed integer as wide as the field; all after them are dropped. */
  lemma InOrderIsRecordedIff(x: Session, u: nat)
    requires WellFormed(x) && FieldsCountUp(x.kind, x.packets) && u < |x.packets| <= Modulus(x.kind)
    ensures Recordable(x)
    ensures Recorded(x, u) <==> 2 * (Number(x.kind, x.packets[0]) + u) < Modulus(x.kind)
  {
    FieldsAreShown(x);
    NumbersFit(x);
    CountingRepeatsNothing(Modulus(x.kind), Stream(x));
    NoRepeatsIsRecordable(x);
    var t := Room(Modulus(x.kind), Stream(x));
    if u >= t {
      TailIsOlder(Modulus(x.kind), Stream(x));
      OlderIsNotRecorded(x, u);
    } else if |x.packets| <= t {
      AllInRangeIsRecorded(x, u);
    } else {
      BeforeTailIsRecorded(x, t, u);
    }
  }

  // ---------- Holes are found exactly ----------

  /** How many of the slots below `upTo` are not in the set. */
  function Absent(filled: set<nat>, upTo: nat): nat {
    if upTo == 0 then 0 else Absent(filled, upTo - 1) + if upTo - 1 in filled then 0 else 1
  }

  lemma {:induction false} AbsentIsTheRest(filled: set<nat>, upTo: nat)
    requires forall k :: k in filled ==> k < upTo
    ensures Absent(filled, upTo) == upTo - |filled|
    decreases upTo
  {
    if upTo == 0 {
      assert filled == {};
    } else {
      var rest := filled - {upTo - 1};
      assert upTo - 1 in filled ==> filled == rest + {upTo - 1};
      AbsentIsTheRest(rest, upTo - 1);
      SameBelow(filled, rest, upTo - 1);
    }
  }

  lemma {:induction false} SameBelow(a: set<nat>, b: set<nat>, upTo: nat)
    requires forall k: nat :: k < upTo ==> (k in a <==> k in b)
    ensures Absent(a, upTo) == Absent(b, upTo)
  {
    if upTo > 0 {
      SameBelow(a, b, upTo - 1);
    }
  }

  /** A slot that got no packet never matches by accident, as long as the memory the buffer started with
      does not carry the very number expected there: whatever else was staged in the slot had another. */
  lemma HoleIsSeen(kind: Kind, s: Setup, first: Packet, id: nat, start: nat, memory: seq<Packet>, f: File, k: nat)
    requires s == Recorder(kind, s.numElems, s.packetSize, s.stock) && s.packetSize >= HeaderSize(kind)
    requires |first| >= HeaderSize(kind) && HoldsFile(s, s.number(first), id, memory, f) && k < s.numElems
    requires start == FileStart(s.numElems, id) && 2 * (Number(kind, first) + start + k) < Modulus(kind)
    requires k !in f.slots ==> s.number(s.Acquired(id)[k]) != Number(kind, first) + start + k
    requires k in f.slots ==> s.number(f.slots[k].packet) == Number(kind, first) + start + k
    ensures WellSized(kind, memory)
    ensures HoleAt(kind, first, start, memory, k) <==> k !in f.slots
  {
    SizedFile(s, s.number(first), id, memory, f, kind);
    HoldsAt(s, s.number(first), id, memory, f, k);
    BaseIsStart(Number(kind, first), s.numElems, id);
    HoleIff(kind, first, start, memory, k);
    assert s.number(memory[k]) == Number(kind, memory[k]);
  }

  lemma HoleIff(kind: Kind, first: Packet, start: nat, memory: seq<Packet>, k: nat)
    requires |first| >= HeaderSize(kind) && WellSized(kind, memory) && k < |memory|
    requires 2 * (Number(kind, first) + start + k) < Modulus(kind)
    ensures HoleAt(kind, first, start, memory, k) <==> Number(kind, memory[k]) != Number(kind, first) + start + k
  {
    SlotMatches(kind, first, memory[k], start + k);
  }

  /** While numbers do not wrap, a header matches the one expected exactly when its number is the one
      expected. */
  lemma SlotMatches(kind: Kind, first: Packet, slot: Packet, offset: nat)
    requires |first| >= HeaderSize(kind) && |slot| >= HeaderSize(kind)
    requires 2 * (Number(kind, first) + offset) < Modulus(kind)
    ensures IsHole(kind, slot, ExpectedHeader(kind, first, offset))
       <==> Number(kind, slot) != Number(kind, first) + offset
  {
    var num := Number(kind, first) + offset;
    SetThenGet(kind, first[..HeaderSize(kind)], num);
    NumberIsCongruent(kind, slot);
    NumberInRange(kind, first);
    NumberInRange(kind, slot);
    if Number(kind, slot) % Modulus(kind) == num % Modulus(kind) {
      CongruentInRange(Number(kind, slot), num, Modulus(kind), Number(kind, first));
    }
  }

  lemma CongruentInRange(a: int, b: int, m: nat, least: int)
    requires m > 0 && a % m == b % m && 0 <= 2 * a + m < 2 * m && 0 <= 2 * least + m && least <= b && 2 * b < m
    ensures a == b
  {
    EqualRemainder(a, b, m);
    var q := (a - b) / m;
    assert a - b == q * m;
    if q >= 1 {
      AtLeastOnce(q, m);
    } else if q <= -1 {
      AtLeastOnce(-q, m);
    }
  }

  lemma NumberInRange(kind: Kind, p: Packet)
    requires |p| >= HeaderSize(kind)
    ensures 0 <= 2 * Number(kind, p) + Modulus(kind) < 2 * Modulus(kind)
  {
    RawNumberFits(kind, p);
  }

  /** The holes are the slots that are not filled. */
  ghost predicate HolesAreRest(kind: Kind, first: Packet, start: int, memory: seq<Packet>, filled: set<nat>) {
    && |first| >= HeaderSize(kind) && WellSized(kind, memory)
    && forall k :: 0 <= k < |memory| ==> (HoleAt(kind, first, start, memory, k) <==> k !in filled)
  }

  lemma CountsStep(kind: Kind, first: Packet, start: int, memory: seq<Packet>, filled: set<nat>, i: nat)
    requires HolesAreRest(kind, first, start, memory, filled) && i < |memory|
    requires CountHoles(kind, first, start, memory, i) == Absent(filled, i)
    ensures CountHoles(kind, first, start, memory, i + 1) == Absent(filled, i + 1)
  {
    CountOneMore(kind, first, start, memory, i);
  }

  lemma {:induction false} CountsAgree(kind: Kind, first: Packet, start: int, memory: seq<Packet>, filled: set<nat>,
                                       upTo: nat)
    requires HolesAreRest(kind, first, start, memory, filled) && upTo <= |memory|
    ensures CountHoles(kind, first, start, memory, upTo) == Absent(filled, upTo)
  {
    if upTo > 0 {
      CountsAgree(kind, first, start, memory, filled, upTo - 1);
      CountsStep(kind, first, start, memory, filled, upTo - 1);
    }
  }

  lemma HolesUpTo(kind: Kind, s: Setup, first: Packet, id: nat, start: nat, memory: seq<Packet>, f: File, upTo: nat)
    requires s == Recorder(kind, s.numElems, s.packetSize, s.stock) && s.packetSize >= HeaderSize(kind)
    requires |first| >= HeaderSize(kind) && HoldsFile(s, s.number(first), id, memory, f) && upTo <= s.numElems
    requires start == FileStart(s.numElems, id) && 2 * (Number(kind, first) + start + s.numElems) <= Modulus(kind)
    requires forall k :: 0 <= k < s.numElems && k !in f.slots ==>
      s.number(s.Acquired(id)[k]) != Number(kind, first) + start + k
    requires forall k :: k in f.slots ==>
      k < s.numElems && s.number(f.slots[k].packet) == Number(kind, first) + start + k
    ensures WellSized(kind, memory) && |memory| == s.numElems
    ensures CountHoles(kind, first, start, memory, upTo) == Absent(f.slots.Keys, upTo)
  {
    SizedFile(s, s.number(first), id, memory, f, kind);
    forall k | 0 <= k < |memory|
      ensures HoleAt(kind, first, start, memory, k) <==> k !in f.slots
    {
      HoleIsSeen(kind, s, first, id, start, memory, f, k);
    }
    CountsAgree(kind, first, start, memory, f.slots.Keys, upTo);
  }

  /** The buffers came out of the pool without the very numbers their empty slots wait for. */
  ghost predicate StockIsForeign(x: Session, j: nat, first: Packet)
    requires WellFormed(x) && |first| >= HeaderSize(x.kind) && j < |AllHanded(x)|
  {
    forall k :: 0 <= k < x.setup.numElems && k !in AllHanded(x)[j].file.slots ==>
      x.setup.number(x.setup.Acquired(j)[k]) != Number(x.kind, first) + FileStart(x.setup.numElems, j) + k
  }

  lemma StoredNumbers(x: Session, j: nat, first: Packet)
    requires Recordable(x) && j < |AllDelivered(x)| && RunCore(x.setup, x.packets).firstPacket == Some(first)
    ensures |first| >= HeaderSize(x.kind) && j < |AllHanded(x)|
    ensures forall k :: k in AllHanded(x)[j].file.slots ==>
      && k < x.setup.numElems
      && x.setup.number(AllHanded(x)[j].file.slots[k].packet)
         == Number(x.kind, first) + FileStart(x.setup.numElems, j) + k
  {
    DeliveredIsHanded(x, j);
    BaseIsStart(Number(x.kind, first), x.setup.numElems, j);
    forall k | k in AllHanded(x)[j].file.slots
      ensures x.setup.number(AllHanded(x)[j].file.slots[k].packet) == AllHanded(x)[j].file.slots[k].num
    {
      StoredIsReal(x, j, k);
    }
  }

  /** For every file of a recording: as long as its numbers do not wrap and its buffer did not come with them,
      the filler reports exactly the slots it reaches that got no packet. */
  lemma HolesAreCounted(x: Session, j: nat, first: Packet)
    requires Recordable(x) && j < |AllDelivered(x)| && RunCore(x.setup, x.packets).firstPacket == Some(first)
    requires |first| >= HeaderSize(x.kind) && j < |AllHanded(x)| && StockIsForeign(x, j, first)
    requires 2 * (Number(x.kind, first) + FileStart(x.setup.numElems, j) + x.setup.numElems) <= Modulus(x.kind)
    ensures var memory, slots := AllDelivered(x)[j].contents, AllHanded(x)[j].file.slots;
      && WellSized(x.kind, memory) && Reached(x, j) <= |memory| == x.setup.numElems
      && CountHoles(x.kind, first, FileStart(x.setup.numElems, j), memory, Reached(x, j))
         == Absent(slots.Keys, Reached(x, j))
      && (Reached(x, j) == x.setup.numElems ==> Absent(slots.Keys, Reached(x, j)) == x.setup.numElems - |slots|)
  {
    DeliveredIsHanded(x, j);
    StoredNumbers(x, j, first);
    HolesUpTo(x.kind, x.setup, first, j, FileStart(x.setup.numElems, j), AllDelivered(x)[j].contents,
              AllHanded(x)[j].file, Reached(x, j));
    AbsentIsTheRest(AllHanded(x)[j].file.slots.Keys, x.setup.numElems);
  }
}
