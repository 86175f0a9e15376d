/** Replaying a file through a ring: one thread reads packets in, another sends them out, and they share only
    the number of packets ready and the flag that reading goes on. */
module Ring {
  import opened Bytes

  type Packet = seq<byte>

  /** What the reading thread does outside the lock. `Finished` has met the end of the file, when `extra`
      packets were reported as ready that were not read; `running` is the shared flag. */
  datatype Reader =
    | Grabbing
    | Reading(toread: nat, filled: nat, toStart: bool)
    | Finished(extra: nat, running: bool)

  /** What the sending thread does outside the lock; in `Taking` it waits while nothing is ready. */
  datatype Sender = Taking | Sending(doSend: nat, sending: nat, toStart: bool) | Done

  datatype Ring = Ring(
    buffer: seq<Packet>,
    nReady: int,         // shared, under the lock
    writeAt: nat,        // slot the next read starts at
    reader: Reader,
    filePos: nat,        // packets read from the file
    readAt: nat,         // slot of the next packet to send
    sender: Sender,
    sent: seq<Packet>)

  datatype Step =
    | Grab        // reader, locked: room for new packets, up to the end of the ring
    | ReadOne     // reader: one packet of the read arrives
    | Confirm     // reader, locked: the read returned, with less than asked for only at the end of the file
    | Eof         // reader, locked: the read returned nothing
    | Stop        // reader: clears the flag
    | Take        // sender, locked: everything ready, up to the end of the ring
    | SendOne     // sender
    | Release     // sender, locked: what was taken is sent; the end if nothing is ready and reading is over

  function Size(r: Ring): nat {
    |r.buffer|
  }

  function Start(buffer: seq<Packet>): Ring {
    Ring(buffer, 0, 0, Grabbing, 0, 0, Taking, [])
  }

  predicate Stopped(r: Ring) {
    r.reader.Finished? && !r.reader.running
  }

  /** The read cannot bring more: it is complete, or the file has ended. */
  predicate Returns(r: Ring, file: seq<Packet>) {
    r.reader.Reading? && (r.reader.filled == r.reader.toread || r.filePos == |file|)
  }

  predicate Enabled(r: Ring, file: seq<Packet>, s: Step) {
    match s
    case Grab => r.reader.Grabbing? && r.nReady != Size(r)
    case ReadOne => r.reader.Reading? && r.reader.filled < r.reader.toread && r.filePos < |file|
    case Confirm => Returns(r, file) && r.reader.filled > 0
    case Eof => Returns(r, file) && r.reader.filled == 0
    case Stop => r.reader.Finished? && r.reader.running
    case Take => r.sender.Taking? && r.nReady != 0
    case SendOne => r.sender.Sending? && r.sender.sending < r.sender.doSend
    case Release => r.sender.Sending? && r.sender.sending == r.sender.doSend
  }

  ghost predicate Safe(r: Ring, s: Step) {
    && (s.Grab? ==> r.nReady <= Size(r) && r.writeAt <= Size(r))
    && (s.ReadOne? && r.reader.Reading? ==> r.writeAt + r.reader.filled < Size(r))
    && (s.Take? ==> 0 <= r.nReady && r.readAt <= Size(r))
    && (s.SendOne? ==> r.readAt < Size(r))
  }

  function Do(r: Ring, file: seq<Packet>, s: Step): Ring
    requires Enabled(r, file, s) && Safe(r, s)
  {
    match s
    case Grab =>
      var room := Size(r) - r.nReady;
      var split := r.writeAt + room >= Size(r);
      r.(reader := Reading(if split then Size(r) - r.writeAt else room, 0, split))
    case ReadOne =>
      r.(buffer := r.buffer[r.writeAt + r.reader.filled := file[r.filePos]],
         reader := r.reader.(filled := r.reader.filled + 1), filePos := r.filePos + 1)
    case Confirm =>
      r.(nReady := r.nReady + r.reader.filled, reader := Grabbing,
         writeAt := if r.reader.toStart then 0 else r.writeAt + r.reader.filled)
    case Eof =>
      r.(nReady := r.nReady + r.reader.toread, reader := Finished(r.reader.toread, true))
    case Stop =>
      r.(reader := r.reader.(running := false))
    case Take =>
      var split := r.readAt + r.nReady >= Size(r);
      r.(sender := Sending(if split then Size(r) - r.readAt else r.nReady, 0, split))
    case SendOne =>
      r.(sent := r.sent + [r.buffer[r.readAt]], readAt := r.readAt + 1,
         sender := r.sender.(sending := r.sender.sending + 1))
    case Release =>
      var left := r.nReady - r.sender.doSend;
      r.(nReady := left, readAt := if r.sender.toStart then 0 else r.readAt,
         sender := if left == 0 && Stopped(r) then Done else Taking)
  }

  // ---------- What is where ----------

  /** Packets whose reading is confirmed. */
  function Confirmed(r: Ring): int {
    r.filePos - if r.reader.Reading? then r.reader.filled else 0
  }

  /** Packets reported as ready, read or not. */
  function Promised(r: Ring): int {
    Confirmed(r) + if r.reader.Finished? then r.reader.extra else 0
  }

  /** Packets whose slots may be reused. */
  function Released(r: Ring): int {
    |r.sent| - if r.sender.Sending? then r.sender.sending else 0
  }

  predicate ReaderOk(r: Ring, file: seq<Packet>) {
    var m, c, d := Size(r), Confirmed(r), Released(r);
    && c >= 0 && m > 0 && r.writeAt < m
    && (r.filePos < |file| ==> r.writeAt == c % m)
    && (r.reader.Reading? ==>
          && 0 < r.reader.toread && r.reader.filled <= r.reader.toread
          && r.writeAt + r.reader.toread <= m && (r.reader.toStart <==> r.writeAt + r.reader.toread == m)
          && c + r.reader.toread <= d + m)
    && (r.reader.Finished? ==> r.filePos == |file| && r.reader.extra > 0)
  }

  predicate SenderOk(r: Ring) {
    var m, d := Size(r), Released(r);
    && d >= 0 && m > 0
    && (r.sender.Taking? ==> r.readAt == d % m)
    && (r.sender.Sending? ==>
          && 0 < r.sender.doSend && r.sender.sending <= r.sender.doSend
          && r.readAt == d % m + r.sender.sending
          && d % m + r.sender.doSend <= m && (r.sender.toStart <==> d % m + r.sender.doSend == m)
          && d + r.sender.doSend <= Promised(r))
    && (r.sender.Done? ==> Stopped(r) && r.nReady == 0)
  }

  /** What was sent is the file from its beginning on, and after the file what was never read. */
  predicate SentOk(r: Ring, file: seq<Packet>) {
    |r.sent| <= Promised(r) && if |r.sent| <= |file| then r.sent == file[..|r.sent|] else r.sent[..|file|] == file
  }

  ghost predicate Inv(r: Ring, file: seq<Packet>) {
    && ReaderOk(r, file) && SenderOk(r) && SentOk(r, file)
    && r.nReady == Promised(r) - Released(r) && 0 <= r.nReady <= Size(r)
    && r.filePos <= |file|
    && (forall k :: Released(r) <= k < r.filePos ==> r.buffer[k % Size(r)] == file[k])
  }

  // ---------- Positions on the ring ----------

  lemma Advance(c: nat, m: nat, t: nat)
    requires m > 0 && c % m + t <= m
    ensures (c + t) % m == if c % m + t == m then 0 else c % m + t
  {
    var q := c / m;
    assert c == q * m + c % m;
    if c % m + t == m {
      assert (q + 1) * m == q * m + m;
      RemainderUnique(c + t, m, q + 1, 0);
    } else {
      RemainderUnique(c + t, m, q, c % m + t);
    }
  }

  lemma NoMultipleBetween(k: int, m: nat)
    requires m > 0
    ensures !(0 < k * m < m)
  {
    if k > 0 {
      AtLeastOnce(k, m);
    } else {
      assert (0 - k) * m >= 0;
    }
  }

  lemma DistinctSlots(a: nat, b: nat, m: nat)
    requires m > 0 && a < b < a + m
    ensures a % m != b % m
  {
    var k := b / m - a / m;
    assert k * m == b / m * m - a / m * m;
    assert b - a == k * m + (b % m - a % m);
    NoMultipleBetween(k, m);
  }

  // ---------- One step ----------

  lemma GrabKeeps(r: Ring, file: seq<Packet>)
    requires Inv(r, file) && Enabled(r, file, Grab)
    ensures Safe(r, Grab) && Inv(Do(r, file, Grab), file)
  {
  }

  /** The slot read into is not the slot of any packet that still has to be sent. */
  lemma ReadOneKeeps(r: Ring, file: seq<Packet>)
    requires Inv(r, file) && Enabled(r, file, ReadOne)
    ensures Safe(r, ReadOne) && Inv(Do(r, file, ReadOne), file)
  {
    var m, d, at := Size(r), Released(r), r.writeAt + r.reader.filled;
    Advance(Confirmed(r), m, r.reader.filled);
    assert at == r.filePos % m;
    var r' := Do(r, file, ReadOne);
    forall k | d <= k < r'.filePos
      ensures r'.buffer[k % m] == file[k]
    {
      if k < r.filePos {
        DistinctSlots(k, r.filePos, m);
      }
    }
  }

  lemma ConfirmKeeps(r: Ring, file: seq<Packet>)
    requires Inv(r, file) && Enabled(r, file, Confirm)
    ensures Inv(Do(r, file, Confirm), file)
  {
    if r.filePos < |file| {
      Advance(Confirmed(r), Size(r), r.reader.toread);
    }
  }

  lemma EofKeeps(r: Ring, file: seq<Packet>)
    requires Inv(r, file) && Enabled(r, file, Eof)
    ensures Inv(Do(r, file, Eof), file)
  {
  }

  lemma StopKeeps(r: Ring, file: seq<Packet>)
    requires Inv(r, file) && Enabled(r, file, Stop)
    ensures Inv(Do(r, file, Stop), file)
  {
  }

  lemma TakeKeeps(r: Ring, file: seq<Packet>)
    requires Inv(r, file) && Enabled(r, file, Take)
    ensures Safe(r, Take) && Inv(Do(r, file, Take), file)
  {
  }

  lemma SendOneKeeps(r: Ring, file: seq<Packet>)
    requires Inv(r, file) && Enabled(r, file, SendOne)
    ensures Safe(r, SendOne) && Inv(Do(r, file, SendOne), file)
  {
    var k := |r.sent|;
    Advance(Released(r), Size(r), r.sender.sending);
    SentGrows(r.sent, file, r.buffer[r.readAt]);
    assert k < |file| ==> r.buffer[k % Size(r)] == file[k];
  }

  lemma SentGrows(sent: seq<Packet>, file: seq<Packet>, p: Packet)
    requires if |sent| <= |file| then sent == file[..|sent|] else sent[..|file|] == file
    requires |sent| < |file| ==> p == file[|sent|]
    ensures var sent' := sent + [p];
      if |sent'| <= |file| then sent' == file[..|sent'|] else sent'[..|file|] == file
  {
  }

  lemma ReleaseKeeps(r: Ring, file: seq<Packet>)
    requires Inv(r, file) && Enabled(r, file, Release)
    ensures Inv(Do(r, file, Release), file)
  {
    Advance(Released(r), Size(r), r.sender.doSend);
  }

  lemma StepKeeps(r: Ring, file: seq<Packet>, s: Step)
    requires Inv(r, file) && Enabled(r, file, s)
    ensures Safe(r, s) && Inv(Do(r, file, s), file)
  {
    match s
    case Grab => GrabKeeps(r, file);
    case ReadOne => ReadOneKeeps(r, file);
    case Confirm => ConfirmKeeps(r, file);
    case Eof => EofKeeps(r, file);
    case Stop => StopKeeps(r, file);
    case Take => TakeKeeps(r, file);
    case SendOne => SendOneKeeps(r, file);
    case Release => ReleaseKeeps(r, file);
  }

  /** The reader asks for all the room there is, or for all of it up to the end of the ring, and for no more. */
  lemma GrabAsksForAll(r: Ring, file: seq<Packet>)
    requires Inv(r, file) && Enabled(r, file, Grab)
    ensures var asked := Do(r, file, Grab).reader.toread;
      && asked > 0 && r.nReady + asked <= Size(r) && r.writeAt + asked <= Size(r)
      && (r.nReady + asked == Size(r) || r.writeAt + asked == Size(r))
  {
    GrabKeeps(r, file);
  }

  /** The sender takes everything that is ready, or all of it up to the end of the ring, and no more. */
  lemma TakeTakesAll(r: Ring, file: seq<Packet>)
    requires Inv(r, file) && Enabled(r, file, Take)
    ensures var taken := Do(r, file, Take).sender.doSend;
      && taken > 0 && taken <= r.nReady && r.readAt + taken <= Size(r)
      && (taken == r.nReady || r.readAt + taken == Size(r))
  {
    TakeKeeps(r, file);
  }

  // ---------- Whole runs ----------

  /** The ring after these steps; a step that is not possible when its turn comes does nothing. */
  ghost function Run(buffer: seq<Packet>, file: seq<Packet>, steps: seq<Step>): Ring {
    if steps == [] then Start(buffer) else
      var r, s := Run(buffer, file, steps[..|steps| - 1]), steps[|steps| - 1];
      if Enabled(r, file, s) && Safe(r, s) then Do(r, file, s) else r
  }

  /** On every interleaving, from the first packet to the end of the file and after it: the count of ready
      packets stays within the ring, it is what is reported and not released, every packet read and not sent is
      intact in its slot, and what was sent is the beginning of the file, in order, or the file and more. */
  lemma {:induction false} RunIsSafe(buffer: seq<Packet>, file: seq<Packet>, steps: seq<Step>)
    requires buffer != []
    ensures Inv(Run(buffer, file, steps), file)
  {
    if steps != [] {
      RunIsSafe(buffer, file, steps[..|steps| - 1]);
      var r, s := Run(buffer, file, steps[..|steps| - 1]), steps[|steps| - 1];
      if Enabled(r, file, s) {
        StepKeeps(r, file, s);
      }
    }
  }

  lemma {:induction false} SizeStays(buffer: seq<Packet>, file: seq<Packet>, steps: seq<Step>)
    ensures Size(Run(buffer, file, steps)) == |buffer|
  {
    if steps != [] {
      SizeStays(buffer, file, steps[..|steps| - 1]);
    }
  }

  /** While the file has not ended, nothing but packets of the file is sent. */
  lemma SentIsPrefix(buffer: seq<Packet>, file: seq<Packet>, steps: seq<Step>)
    requires buffer != []
    ensures var r := Run(buffer, file, steps);
      0 <= r.nReady <= |buffer| && (!r.reader.Finished? ==> r.sent <= file)
  {
    RunIsSafe(buffer, file, steps);
    SizeStays(buffer, file, steps);
  }

  /** The reader has stopped and the sender waits for more. */
  predicate Hung(r: Ring) {
    Stopped(r) && r.sender.Taking? && r.nReady == 0
  }

  function SenderStep(r: Ring): Step {
    if r.sender.Sending? then (if r.sender.sending < r.sender.doSend then SendOne else Release) else Take
  }

  function ReaderStep(r: Ring): Step {
    if r.reader.Grabbing? then Grab
    else if r.reader.Finished? then Stop
    else if r.reader.filled < r.reader.toread then ReadOne else Confirm
  }

  function SomeStep(r: Ring): Step {
    if r.sender.Sending? || r.nReady != 0 then SenderStep(r) else ReaderStep(r)
  }

  /** No step ever touches memory outside the ring, and some step is possible if and only if neither the sender
      has ended nor both threads wait for good. */
  lemma NeverStuck(buffer: seq<Packet>, file: seq<Packet>, steps: seq<Step>)
    requires buffer != []
    ensures var r := Run(buffer, file, steps);
      && (forall s :: Enabled(r, file, s) ==> Safe(r, s))
      && ((exists s :: Enabled(r, file, s)) <==> !r.sender.Done? && !Hung(r))
  {
    RunIsSafe(buffer, file, steps);
    var r := Run(buffer, file, steps);
    forall s | Enabled(r, file, s)
      ensures Safe(r, s)
    {
      StepKeeps(r, file, s);
    }
    if !r.sender.Done? && !Hung(r) {
      assert Enabled(r, file, SomeStep(r)) || Enabled(r, file, Confirm) || Enabled(r, file, Eof);
    }
  }

  predicate OfReader(s: Step) {
    s.Grab? || s.ReadOne? || s.Confirm? || s.Eof? || s.Stop?
  }

  /** Each thread waits only for the other: the reader can go on unless the ring is full or it has stopped, and the
      sender unless nothing is ready or it has ended. */
  lemma WhoWaits(buffer: seq<Packet>, file: seq<Packet>, steps: seq<Step>)
    requires buffer != []
    ensures var r := Run(buffer, file, steps);
      && ((exists s :: OfReader(s) && Enabled(r, file, s))
          <==> !(r.reader.Grabbing? && r.nReady == |buffer|) && !Stopped(r))
      && ((exists s :: !OfReader(s) && Enabled(r, file, s))
          <==> !(r.sender.Taking? && r.nReady == 0) && !r.sender.Done?)
  {
    RunIsSafe(buffer, file, steps);
    SizeStays(buffer, file, steps);
    var r := Run(buffer, file, steps);
    if !(r.reader.Grabbing? && r.nReady == |buffer|) && !Stopped(r) {
      var s := ReaderStep(r);
      assert Enabled(r, file, s) || Enabled(r, file, Confirm) || Enabled(r, file, Eof);
    }
    if !(r.sender.Taking? && r.nReady == 0) && !r.sender.Done? {
      assert Enabled(r, file, SenderStep(r));
    }
  }

  // ---------- The end of the file ----------

  /** When nothing is left to do, the whole file was sent, and after it at least one packet that was never
      read: at the end of the file the room asked for is reported as ready all the same. */
  lemma EndPromisesTooMuch(buffer: seq<Packet>, file: seq<Packet>, steps: seq<Step>)
    requires buffer != []
    requires var r := Run(buffer, file, steps); r.sender.Done? || Hung(r)
    ensures var r := Run(buffer, file, steps);
      r.reader.Finished? && |r.sent| == |file| + r.reader.extra > |file| && r.sent[..|file|] == file
  {
    RunIsSafe(buffer, file, steps);
  }

  /** Step t was to ask for this many packets, behind the first `pos` of the file: for all the room there was
      then, or all of it up to the end of the ring. */
  ghost predicate AskedAt(buffer: seq<Packet>, file: seq<Packet>, steps: seq<Step>, t: nat, asked: nat, pos: int) {
    && t < |steps| && steps[t] == Grab
    && var r := Run(buffer, file, steps[..t]);
       && r.reader.Grabbing? && r.filePos == pos
       && r.nReady + asked <= |buffer| && r.writeAt + asked <= |buffer|
       && (r.nReady + asked == |buffer| || r.writeAt + asked == |buffer|)
  }

  ghost predicate WasAsked(buffer: seq<Packet>, file: seq<Packet>, steps: seq<Step>, asked: nat, pos: int) {
    exists t: nat :: AskedAt(buffer, file, steps, t, asked, pos)
  }

  lemma AskedBefore(buffer: seq<Packet>, file: seq<Packet>, steps: seq<Step>, asked: nat, pos: int)
    requires steps != [] && WasAsked(buffer, file, steps[..|steps| - 1], asked, pos)
    ensures WasAsked(buffer, file, steps, asked, pos)
  {
    var init := steps[..|steps| - 1];
    var t: nat :| AskedAt(buffer, file, init, t, asked, pos);
    assert init[..t] == steps[..t];
    assert AskedAt(buffer, file, steps, t, asked, pos);
  }

  lemma AskedNow(buffer: seq<Packet>, file: seq<Packet>, init: seq<Step>)
    requires buffer != [] && Enabled(Run(buffer, file, init), file, Grab) && Safe(Run(buffer, file, init), Grab)
    ensures var r := Run(buffer, file, init);
      WasAsked(buffer, file, init + [Grab], Do(r, file, Grab).reader.toread, Confirmed(r))
  {
    RunIsSafe(buffer, file, init);
    SizeStays(buffer, file, init);
    var r := Run(buffer, file, init);
    GrabAsksForAll(r, file);
    assert (init + [Grab])[..|init|] == init;
    assert AskedAt(buffer, file, init + [Grab], |init|, Do(r, file, Grab).reader.toread, Confirmed(r));
  }

  /** What the reader last asked for, and behind how many packets of the file; at its end what it reported. */
  ghost predicate Asks(r: Ring, file: seq<Packet>, asked: nat, pos: int) {
    || (r.reader.Reading? && asked == r.reader.toread && pos == Confirmed(r))
    || (r.reader.Finished? && asked == r.reader.extra && pos == |file|)
  }

  lemma AskedStays(r: Ring, file: seq<Packet>, s: Step, asked: nat, pos: int)
    requires Inv(r, file) && Enabled(r, file, s) && Safe(r, s) && !s.Grab? && Asks(Do(r, file, s), file, asked, pos)
    ensures Asks(r, file, asked, pos)
  {
  }

  lemma {:induction false} AsksWasAsked(buffer: seq<Packet>, file: seq<Packet>, steps: seq<Step>, asked: nat, pos: int)
    requires buffer != [] && Asks(Run(buffer, file, steps), file, asked, pos)
    ensures WasAsked(buffer, file, steps, asked, pos)
  {
    var init, s := steps[..|steps| - 1], steps[|steps| - 1];
    assert steps == init + [s];
    var r := Run(buffer, file, init);
    RunIsSafe(buffer, file, init);
    if s.Grab? && Enabled(r, file, s) && Safe(r, s) {
      AskedNow(buffer, file, init);
    } else {
      if Enabled(r, file, s) && Safe(r, s) {
        AskedStays(r, file, s, asked, pos);
      }
      AsksWasAsked(buffer, file, init, asked, pos);
      AskedBefore(buffer, file, steps, asked, pos);
    }
  }

  /** The packets reported at the end of the file without having been read are as many as were asked for when
      nothing was left of the file: the room there was then, or all of it up to the end of the ring. */
  lemma ExtraIsRoomAsked(buffer: seq<Packet>, file: seq<Packet>, steps: seq<Step>)
    requires buffer != [] && Run(buffer, file, steps).reader.Finished?
    ensures exists t: nat :: AskedAt(buffer, file, steps, t, Run(buffer, file, steps).reader.extra, |file|)
  {
    AsksWasAsked(buffer, file, steps, Run(buffer, file, steps).reader.extra, |file|);
  }

  /** While the sender has not started, the reader reads into the front of the ring, asks for all of it, and then
      for all that is left; at the end of the file that is reported as ready, and the ring counts as full. */
  ghost predicate FillingAlone(r: Ring, buffer: seq<Packet>, file: seq<Packet>) {
    && r.sent == [] && r.sender.Taking? && r.writeAt == 0 && r.filePos <= |buffer| && r.filePos <= |file|
    && r.buffer == file[..r.filePos] + buffer[r.filePos..]
    && match r.reader
       case Grabbing => r.nReady == r.filePos && (r.filePos == 0 || r.filePos == |file| || r.filePos == |buffer|)
       case Reading(toread, filled, _) => r.nReady + toread == |buffer| && r.nReady + filled == r.filePos
                                          && (r.nReady > 0 ==> filled == 0 && r.filePos == |file|)
       case Finished(extra, _) => r.nReady == |buffer| && |file| + extra == |buffer| && r.filePos == |file|
  }

  lemma OneMoreRead(buffer: seq<Packet>, file: seq<Packet>, n: nat)
    requires n < |file| && n < |buffer|
    ensures (file[..n] + buffer[n..])[n := file[n]] == file[..n + 1] + buffer[n + 1..]
  {
  }

  lemma AloneReads(r: Ring, buffer: seq<Packet>, file: seq<Packet>)
    requires Inv(r, file) && FillingAlone(r, buffer, file) && Enabled(r, file, ReadOne) && Safe(r, ReadOne)
    ensures FillingAlone(Do(r, file, ReadOne), buffer, file)
  {
    OneMoreRead(buffer, file, r.filePos);
  }

  lemma AloneStep(r: Ring, buffer: seq<Packet>, file: seq<Packet>, s: Step)
    requires Inv(r, file) && FillingAlone(r, buffer, file) && !s.Take? && Enabled(r, file, s) && Safe(r, s)
    ensures FillingAlone(Do(r, file, s), buffer, file)
  {
    if s.ReadOne? {
      AloneReads(r, buffer, file);
    }
  }

  lemma {:induction false} AloneIs(buffer: seq<Packet>, file: seq<Packet>, steps: seq<Step>)
    requires buffer != [] && Take !in steps
    ensures FillingAlone(Run(buffer, file, steps), buffer, file)
  {
    if steps != [] {
      var init, s := steps[..|steps| - 1], steps[|steps| - 1];
      assert s in steps && forall t :: t in init ==> t in steps;
      AloneIs(buffer, file, init);
      RunIsSafe(buffer, file, init);
      if Enabled(Run(buffer, file, init), file, s) && Safe(Run(buffer, file, init), s) {
        AloneStep(Run(buffer, file, init), buffer, file, s);
      }
    }
  }

  /** The ring counts as full of `all`, which is sent from its first slot on. */
  ghost predicate Emptying(r: Ring, file: seq<Packet>, all: seq<Packet>) {
    r.reader.Finished? && r.buffer == all && |file| + r.reader.extra == |all| && r.sent <= all
  }

  lemma EmptyingStep(r: Ring, file: seq<Packet>, all: seq<Packet>, s: Step)
    requires Inv(r, file) && Emptying(r, file, all) && Enabled(r, file, s) && Safe(r, s)
    ensures Emptying(Do(r, file, s), file, all)
  {
    if s.SendOne? {
      InFirstRound(Released(r), Size(r));
    }
  }

  lemma InFirstRound(d: nat, m: nat)
    requires d < m
    ensures d % m == d
  {
    RemainderUnique(d, m, 0, d);
  }

  lemma {:induction false} EmptyingIs(buffer: seq<Packet>, file: seq<Packet>, filling: seq<Step>, rest: seq<Step>,
                                      all: seq<Packet>)
    requires buffer != [] && Emptying(Run(buffer, file, filling), file, all)
    ensures Emptying(Run(buffer, file, filling + rest), file, all)
  {
    if rest == [] {
      assert filling + rest == filling;
    } else {
      var init, s := rest[..|rest| - 1], rest[|rest| - 1];
      EmptyingIs(buffer, file, filling, init, all);
      assert (filling + rest)[..|filling + rest| - 1] == filling + init;
      RunIsSafe(buffer, file, filling + init);
      if Enabled(Run(buffer, file, filling + init), file, s) && Safe(Run(buffer, file, filling + init), s) {
        EmptyingStep(Run(buffer, file, filling + init), file, all, s);
      }
    }
  }

  /** When the reader meets the end of the file before the sender starts, the file is shorter than the ring, and
      the whole ring is sent: the file, and behind it what was in the other slots before. */
  lemma WholeRingIsSent(buffer: seq<Packet>, file: seq<Packet>, filling: seq<Step>, rest: seq<Step>)
    requires buffer != [] && Take !in filling && Run(buffer, file, filling).reader.Finished?
    ensures |file| < |buffer|
    ensures var r := Run(buffer, file, filling + rest);
      && r.sent <= file + buffer[|file|..]
      && (r.sender.Done? || Hung(r) ==> r.sent == file + buffer[|file|..])
  {
    AloneIs(buffer, file, filling);
    RunIsSafe(buffer, file, filling);
    var all := file + buffer[|file|..];
    assert file[..|file|] == file;
    EmptyingIs(buffer, file, filling, rest, all);
    RunIsSafe(buffer, file, filling + rest);
  }

  /** The sender waits for good exactly when it had sent everything before the reader cleared its flag: it looks
      at the flag only before it starts to wait. */
  lemma HangsIff(r: Ring, file: seq<Packet>, s: Step)
    requires Inv(r, file) && Enabled(r, file, s) && Safe(r, s)
    ensures Hung(Do(r, file, s)) <==> s.Stop? && r.sender.Taking? && r.nReady == 0
  {
  }

  lemma RunOneMore(buffer: seq<Packet>, file: seq<Packet>, steps: seq<Step>, s: Step)
    requires Enabled(Run(buffer, file, steps), file, s) && Safe(Run(buffer, file, steps), s)
    ensures Run(buffer, file, steps + [s]) == Do(Run(buffer, file, steps), file, s)
  {
    assert (steps + [s])[..|steps|] == steps;
  }

  /** A file of one packet and a ring of two slots: the read asks for two packets and gets one, and the next
      finds the end of the file with room for one more reported. */
  lemma OnePacketRead(p: Packet, a: Packet, b: Packet)
    ensures Run([a, b], [p], [Grab] + [ReadOne] + [Confirm] + [Grab] + [Eof])
         == Ring([p, b], 2, 0, Finished(1, true), 1, 0, Taking, [])
  {
    var start, file := [a, b], [p];
    assert Run(start, file, []) == Start(start);
    RunOneMore(start, file, [], Grab);
    assert [] + [Grab] == [Grab];
    RunOneMore(start, file, [Grab], ReadOne);
    assert [a, b][0 := p] == [p, b];
    RunOneMore(start, file, [Grab] + [ReadOne], Confirm);
    RunOneMore(start, file, [Grab] + [ReadOne] + [Confirm], Grab);
    RunOneMore(start, file, [Grab] + [ReadOne] + [Confirm] + [Grab], Eof);
  }

  /** Both are sent, and then the sender ends or waits for good, depending on whether the flag is cleared before
      or after that. */
  lemma SendBoth(buffer: seq<Packet>, file: seq<Packet>, steps: seq<Step>, p: Packet, b: Packet, running: bool)
    requires Run(buffer, file, steps) == Ring([p, b], 2, 0, Finished(1, running), 1, 0, Taking, [])
    ensures Run(buffer, file, steps + [Take] + [SendOne] + [SendOne] + [Release])
         == Ring([p, b], 0, 0, Finished(1, running), 1, 0, if running then Taking else Done, [p, b])
  {
    RunOneMore(buffer, file, steps, Take);
    RunOneMore(buffer, file, steps + [Take], SendOne);
    RunOneMore(buffer, file, steps + [Take] + [SendOne], SendOne);
    assert [p] + [b] == [p, b];
    RunOneMore(buffer, file, steps + [Take] + [SendOne] + [SendOne], Release);
  }

  lemma UnreadPacketIsSent(p: Packet, a: Packet, b: Packet)
    ensures var reading := [Grab] + [ReadOne] + [Confirm] + [Grab] + [Eof];
      var ends := Run([a, b], [p], reading + [Stop] + [Take] + [SendOne] + [SendOne] + [Release]);
      var hangs := Run([a, b], [p], reading + [Take] + [SendOne] + [SendOne] + [Release] + [Stop]);
      ends.sender.Done? && Hung(hangs) && ends.sent == hangs.sent == [p, b]
  {
    var start, file, reading := [a, b], [p], [Grab] + [ReadOne] + [Confirm] + [Grab] + [Eof];
    OnePacketRead(p, a, b);
    RunOneMore(start, file, reading, Stop);
    SendBoth(start, file, reading + [Stop], p, b, false);
    SendBoth(start, file, reading, p, b, true);
    RunOneMore(start, file, reading + [Take] + [SendOne] + [SendOne] + [Release], Stop);
  }
}
