/** Recording every buffer into one file, with the first bytes of each packet left out. */
module SingleFile {
  import opened Bytes

  type Packet = seq<byte>

  /** How many vectors one gathering write can take. */
  const IOV_MAX: nat := 1024

  /** What the streamer takes for the end of a file. */
  const EOF: int := -1

  datatype Setup = Setup(packetSize: nat, offset: nat, numElems: nat) {
    predicate Valid() {
      offset < packetSize && numElems > 0
    }

    /** What is left of a packet. */
    function Kept(): nat
      requires offset < packetSize
    {
      packetSize - offset
    }

    /** The length of a full file on disk. */
    function Stride(): nat
      requires offset < packetSize
    {
      numElems * Kept()
    }
  }

  predicate Sized(s: Setup, packets: seq<Packet>) {
    forall k :: 0 <= k < |packets| ==> |packets[k]| == s.packetSize
  }

  /** The packets without their first bytes, one after the other. */
  function Stripped(s: Setup, packets: seq<Packet>): (r: seq<byte>)
    requires s.Valid() && Sized(s, packets)
  {
    if packets == [] then [] else Stripped(s, packets[..|packets| - 1]) + packets[|packets| - 1][s.offset..]
  }

  function StrippedLength(s: Setup, n: nat): nat
    requires s.Valid()
  {
    n * s.Kept()
  }

  lemma {:induction false} LengthOfStripped(s: Setup, packets: seq<Packet>)
    requires s.Valid() && Sized(s, packets)
    ensures |Stripped(s, packets)| == StrippedLength(s, |packets|)
  {
    if packets != [] {
      LengthOfStripped(s, packets[..|packets| - 1]);
    }
  }

  lemma EarlierIsBefore(s: Setup, i: nat, n: nat, j: nat)
    requires s.Valid() && i < n && j < s.Kept()
    ensures StrippedLength(s, i) + j < StrippedLength(s, n)
  {
    AtLeastOnce(n - i, s.Kept());
    assert (n - i) * s.Kept() == n * s.Kept() - i * s.Kept();
  }

  /** Which byte is where: byte j of what is left of packet i is behind i packets, and it is byte offset + j of
      the packet. */
  lemma {:induction false} StrippedAt(s: Setup, packets: seq<Packet>, i: nat, j: nat, at: nat)
    requires s.Valid() && Sized(s, packets) && i < |packets| && j < s.packetSize - s.offset
    requires at == i * (s.packetSize - s.offset) + j
    ensures at < |Stripped(s, packets)| && Stripped(s, packets)[at] == packets[i][s.offset + j]
  {
    EarlierIsBefore(s, i, |packets|, j);
    var init := packets[..|packets| - 1];
    LengthOfStripped(s, packets);
    LengthOfStripped(s, init);
    if i < |init| {
      StrippedAt(s, init, i, j, at);
    } else {
      assert packets[i][s.offset..][j] == packets[i][s.offset + j];
    }
  }

  lemma {:induction false} StrippedAppends(s: Setup, a: seq<Packet>, b: seq<Packet>)
    requires s.Valid() && Sized(s, a) && Sized(s, b)
    ensures Stripped(s, a + b) == Stripped(s, a) + Stripped(s, b)
  {
    if b == [] {
      assert a + b == a;
    } else {
      var init := b[..|b| - 1];
      StrippedAppends(s, a, init);
      assert (a + b)[..|a + b| - 1] == a + init;
    }
  }

  /** A file after data was written at a position; a gap reads as zero. */
  function WriteAt(file: seq<byte>, at: nat, data: seq<byte>): seq<byte> {
    var filled := if |file| < at then file + seq(at - |file|, _ => 0) else file;
    if data == [] then file
    else filled[..at] + data + if at + |data| < |filled| then filled[at + |data|..] else []
  }

  lemma WriteAtLength(file: seq<byte>, at: nat, data: seq<byte>)
    requires data != []
    ensures |WriteAt(file, at, data)| == if |file| < at + |data| then at + |data| else |file|
  {
  }

  lemma WriteAtByte(file: seq<byte>, at: nat, data: seq<byte>, p: nat)
    requires data != [] && p < |WriteAt(file, at, data)|
    ensures WriteAt(file, at, data)[p]
         == if at <= p < at + |data| then data[p - at] else if p < |file| then file[p] else 0
  {
  }

  lemma WriteAtTwice(file: seq<byte>, at: nat, a: seq<byte>, b: seq<byte>)
    ensures WriteAt(WriteAt(file, at, a), at + |a|, b) == WriteAt(file, at, a + b)
  {
    if a == [] {
      assert a + b == b;
    } else if b == [] {
      assert a + b == a;
    } else {
      WriteAtLength(file, at, a);
      WriteAtLength(WriteAt(file, at, a), at + |a|, b);
      WriteAtLength(file, at, a + b);
      forall p: nat | p < |WriteAt(file, at, a + b)|
        ensures WriteAt(WriteAt(file, at, a), at + |a|, b)[p] == WriteAt(file, at, a + b)[p]
      {
        TwiceByte(file, at, a, b, p);
      }
    }
  }

  lemma TwiceByte(file: seq<byte>, at: nat, a: seq<byte>, b: seq<byte>, p: nat)
    requires a != [] && b != [] && p < |WriteAt(file, at, a + b)|
    requires |WriteAt(WriteAt(file, at, a), at + |a|, b)| == |WriteAt(file, at, a + b)|
    ensures WriteAt(WriteAt(file, at, a), at + |a|, b)[p] == WriteAt(file, at, a + b)[p]
  {
    WriteAtLength(file, at, a);
    WriteAtByte(file, at, a + b, p);
    WriteAtByte(WriteAt(file, at, a), at + |a|, b, p);
    if p < |WriteAt(file, at, a)| {
      WriteAtByte(file, at, a, p);
    }
  }

  lemma WriteAtEnd(file: seq<byte>, data: seq<byte>)
    ensures WriteAt(file, |file|, data) == file + data
  {
  }

  /** One gathering write: the vectors in order. */
  function Gathered(s: Setup, packets: seq<Packet>): (iov: seq<seq<byte>>)
    requires s.Valid() && Sized(s, packets)
  {
    seq(|packets|, i requires 0 <= i < |packets| => packets[i][s.offset..])
  }

  function Concat(iov: seq<seq<byte>>): seq<byte> {
    if iov == [] then [] else Concat(iov[..|iov| - 1]) + iov[|iov| - 1]
  }

  lemma {:induction false} GatheredIsStripped(s: Setup, packets: seq<Packet>)
    requires s.Valid() && Sized(s, packets)
    ensures Concat(Gathered(s, packets)) == Stripped(s, packets)
  {
    if packets != [] {
      GatheredIsStripped(s, packets[..|packets| - 1]);
      assert Gathered(s, packets)[..|packets| - 1] == Gathered(s, packets[..|packets| - 1]);
    }
  }

  /** What a gathering write that is asked for `count` bytes returns: -1, or how many it wrote. */
  function Outcome(ret: int, count: nat): (wrote: int)
    ensures -1 <= wrote <= count
  {
    if ret < 0 then -1 else if ret > count then count else ret
  }

  /** A recorder with the shared file open. */
  class Recorder {
    const s: Setup
    var file: seq<byte>
    var offset: nat
    var failed: nat   // how many gathering writes have failed
    var short: nat    // how many have written less than they were asked for

    constructor (s: Setup, file: seq<byte>, fileId: nat)
      requires s.Valid()
      ensures this.s == s && this.file == file && offset == s.Stride() * fileId && failed == short == 0
    {
      this.s, this.file, failed, short := s, file, 0, 0;
      offset := s.Stride() * fileId;
    }

    /** The offset is behind the stripped packets, and the file holds them if no write since was short. */
    ghost predicate Holds(was: seq<byte>, at: nat, before: nat, packets: seq<Packet>)
      requires s.Valid() && Sized(s, packets)
      reads this
    {
      && offset == at + |Stripped(s, packets)| && short >= before
      && (short == before ==> file == WriteAt(was, at, Stripped(s, packets)))
    }

    /** One batch of vectors goes out at the current offset; a failing call writes nothing, and after a short one
        the offset moves on as if it had written everything. */
    method WriteBatch(packets: seq<Packet>, ret: int) returns (ok: bool)
      requires s.Valid() && Sized(s, packets)
      modifies this
      ensures ok == (ret >= 0) && failed == old(failed) + if ok then 0 else 1
      ensures ok ==> var data := Stripped(s, packets);
        file == WriteAt(old(file), old(offset), data[..Outcome(ret, |data|)])
      ensures ok ==> Holds(old(file), old(offset), old(short), packets)
      ensures short == old(short) + if ok && ret < |Stripped(s, packets)| then 1 else 0
      ensures !ok ==> file == old(file) && offset == old(offset)
    {
      var iov: seq<seq<byte>> := [];
      for i := 0 to |packets|
        invariant iov == Gathered(s, packets)[..i]
      {
        iov := iov + [packets[i][s.offset..]];
      }
      assert iov == Gathered(s, packets);
      GatheredIsStripped(s, packets);
      LengthOfStripped(s, packets);
      var data := Concat(iov);
      var err := Outcome(ret, |data|);
      if err < 0 {
        failed := failed + 1;
        return false;
      }
      assert data[..|data|] == data;
      file := WriteAt(file, offset, data[..err]);
      short := short + if err < |data| then 1 else 0;
      offset := offset + |packets| * s.Kept();
      ok := true;
    }

    /** A batch after the packets written so far. */
    method WriteOneMoreBatch(packets: seq<Packet>, batch: seq<Packet>, ret: int,
                             ghost was: seq<byte>, ghost at: nat, ghost before: nat)
      returns (ok: bool)
      requires s.Valid() && Sized(s, packets) && Sized(s, batch) && Holds(was, at, before, packets)
      modifies this
      ensures ok == (ret >= 0) && failed == old(failed) + if ok then 0 else 1
      ensures Holds(was, at, before, if ok then packets + batch else packets)
    {
      ok := WriteBatch(batch, ret);
      WriteAtTwice(was, at, Stripped(s, packets), Stripped(s, batch));
      StrippedAppends(s, packets, batch);
    }

    /** Writes the packets that fit into `count` bytes of the buffer, as many at a time as one call takes.
        Reports the bytes as they are in the buffer, not the fewer bytes on disk. */
    method WritevWrite(memory: seq<Packet>, start: nat, count: nat, rets: int -> int)
      returns (ret: int, ghost written: nat)
      requires s.Valid() && Sized(s, memory) && start + count / s.packetSize <= |memory|
      modifies this
      ensures written <= count / s.packetSize
      ensures Holds(old(file), old(offset), old(short), memory[start..start + written])
      ensures failed == old(failed) ==> ret == count && written == count / s.packetSize
      ensures failed != old(failed) ==> ret == -1 && written < count / s.packetSize && failed == old(failed) + 1
    {
      var nVecs := count / s.packetSize;
      var total := 0;
      ghost var file0, offset0, short0 := file, offset, short;
      assert memory[start..start] == [];
      while total < nVecs
        invariant total <= nVecs && failed == old(failed)
        invariant Holds(file0, offset0, short0, memory[start..start + total])
      {
        var i := if IOV_MAX < nVecs - total then IOV_MAX else nVecs - total;
        var batch := memory[start + total..start + total + i];
        written := total;
        var ok := WriteOneMoreBatch(memory[start..start + total], batch, rets(total), file0, offset0, short0);
        if !ok {
          ret := -1;
          return;
        }
        assert memory[start..start + (total + i)] == memory[start..start + total] + batch;
        total := total + i;
      }
      ret, written := count, total;
    }

    /** One call: at most `limit` bytes, which are `perCall` packets, of the `diff` that are left. */
    method WriteNext(memory: seq<Packet>, from: nat, diff: nat, limit: nat, rets: int -> int,
                     ghost done: nat, ghost perCall: nat)
      returns (ret: int, count: nat, ghost next: nat)
      requires s.Valid() && Sized(s, memory) && done <= |memory| && perCall >= 1 && diff > 0
      requires InBytes(s, diff, |memory| - done) && InBytes(s, from, done) && InBytes(s, limit, perCall)
      modifies this
      ensures 0 < count <= diff && done <= next <= |memory|
      ensures Holds(old(file), old(offset), old(short), memory[done..next])
      ensures failed == old(failed) ==>
        ret == count && InBytes(s, diff - count, |memory| - next) && InBytes(s, from + count, next)
      ensures failed != old(failed) ==> ret == -1 && next < |memory| && failed == old(failed) + 1
    {
      NextCall(s.packetSize, |memory|, done, perCall);
      count := if diff > limit then limit else diff;
      ghost var written: nat;
      ret, written := WritevWrite(memory, from / s.packetSize, count, rets);
      next := done + written;
    }

    /** What a call wrote continues what was written before. */
    method WriteAfter(memory: seq<Packet>, from: nat, diff: nat, limit: nat, rets: int -> int,
                      ghost done: nat, ghost perCall: nat, ghost was: seq<byte>, ghost at: nat, ghost before: nat)
      returns (left: nat, to: nat, ghost next: nat)
      requires s.Valid() && Sized(s, memory) && done <= |memory| && perCall >= 1 && diff > 0
      requires InBytes(s, diff, |memory| - done) && InBytes(s, from, done) && InBytes(s, limit, perCall)
      requires Holds(was, at, before, memory[..done])
      modifies this
      ensures done <= next <= |memory| && Holds(was, at, before, memory[..next]) && left < diff
      ensures failed == old(failed) ==> InBytes(s, left, |memory| - next) && InBytes(s, to, next)
      ensures failed != old(failed) ==> left == 0 && next < |memory| && failed == old(failed) + 1
    {
      var ret, count;
      ret, count, next := WriteNext(memory, from, diff, limit, rets, done, perCall);
      PieceAppends(s, memory, done, next, was, at, old(offset));
      left, to := diff - count, from + count;
      if ret == EOF {
        left, to := 0, from;
      }
    }

    /** Writes a whole buffer: calls of at most as many whole packets as fit into `every` bytes. A failing
        write returns -1, which reads as an end of file: the rest counts as written, and the buffer as done. So
        the result is always success; the packets on disk are all of them if and only if no write failed, and
        they are there in full if none was short. */
    method RecordBuffer(memory: seq<Packet>, every: nat, rets: (int, int) -> int)
      returns (err: int, ghost done: nat)
      requires s.Valid() && Sized(s, memory) && every >= s.packetSize
      modifies this
      ensures done <= |memory| && Holds(old(file), old(offset), old(short), memory[..done])
      ensures err == 0 && failed <= old(failed) + 1
      ensures done == |memory| <==> failed == old(failed)
    {
      ghost var file0, offset0, short0, failed0, perCall := file, offset, short, failed, every / s.packetSize;
      var limit: nat, diff: nat, from: nat := BytesOf(s, every / s.packetSize), BytesOf(s, |memory|), 0;
      done := 0;
      assert memory[..0] == [];
      while diff > 0
        invariant done <= |memory| && Holds(file0, offset0, short0, memory[..done])
        invariant failed == failed0 ==> InBytes(s, diff, |memory| - done) && InBytes(s, from, done)
        invariant failed != failed0 ==> failed == failed0 + 1 && diff == 0 && done < |memory|
        decreases diff
      {
        diff, from, done := WriteAfter(memory, from, diff, limit, i => rets(from, i), done, perCall,
                                       file0, offset0, short0);
      }
      if failed == failed0 {
        NothingLeft(|memory| - done, s.packetSize);
      }
      err := 0;
    }
  }

  function BytesOf(s: Setup, packets: nat): nat {
    packets * s.packetSize
  }

  predicate InBytes(s: Setup, bytes: nat, packets: nat) {
    bytes == BytesOf(s, packets)
  }

  lemma LessTimes(a: nat, b: nat, size: nat)
    requires size > 0
    ensures a > b <==> a * size > b * size
  {
    if a > b {
      AtLeastOnce(a - b, size);
      assert (a - b) * size == a * size - b * size;
    } else {
      assert (b - a) * size == b * size - a * size;
      assert (b - a) * size >= 0;
    }
  }

  lemma Distribute(a: int, b: int, size: nat)
    ensures (a - b) * size == a * size - b * size && (a + b) * size == a * size + b * size
  {
  }

  /** A call takes whole packets: as many as allowed, or all that are left. */
  lemma NextCall(size: nat, n: nat, done: nat, perCall: nat)
    requires size > 0 && done <= n && perCall >= 1 && (n - done) * size > 0
    ensures var c := if n - done > perCall then perCall else n - done;
      var count := if (n - done) * size > perCall * size then perCall * size else (n - done) * size;
      && done < n && count == c * size && count / size == c && done * size / size == done && count > 0
      && (n - done) * size - count == (n - (done + c)) * size && done * size + count == (done + c) * size
  {
    var c := if n - done > perCall then perCall else n - done;
    LessTimes(n - done, perCall, size);
    LessTimes(c, 0, size);
    ExactQuotient(c, size);
    ExactQuotient(done, size);
    Distribute(n - done, c, size);
    Distribute(done, c, size);
  }

  lemma NothingLeft(left: nat, size: nat)
    requires size > 0 && left * size == 0
    ensures left == 0
  {
    if left > 0 {
      AtLeastOnce(left, size);
    }
  }

  lemma PieceAppends(s: Setup, memory: seq<Packet>, done: nat, next: nat, was: seq<byte>, at: nat, offset: nat)
    requires s.Valid() && Sized(s, memory) && done <= next <= |memory| && offset == at + |Stripped(s, memory[..done])|
    ensures WriteAt(WriteAt(was, at, Stripped(s, memory[..done])), offset, Stripped(s, memory[done..next]))
         == WriteAt(was, at, Stripped(s, memory[..next]))
    ensures offset + |Stripped(s, memory[done..next])| == at + |Stripped(s, memory[..next])|
  {
    StrippedAppends(s, memory[..done], memory[done..next]);
    assert memory[..next] == memory[..done] + memory[done..next];
    WriteAtTwice(was, at, Stripped(s, memory[..done]), Stripped(s, memory[done..next]));
  }

  // ---------- The whole recording ----------

  /** Every file but the last is full. */
  predicate FullButLast(s: Setup, files: seq<seq<Packet>>) {
    && (forall j :: 0 <= j < |files| ==> Sized(s, files[j]))
    && (forall j :: 0 <= j < |files| - 1 ==> |files[j]| == s.numElems)
  }

  function AllPackets(files: seq<seq<Packet>>): seq<Packet> {
    if files == [] then [] else AllPackets(files[..|files| - 1]) + files[|files| - 1]
  }

  lemma {:induction false} AllSized(s: Setup, files: seq<seq<Packet>>)
    requires forall j :: 0 <= j < |files| ==> Sized(s, files[j])
    ensures Sized(s, AllPackets(files))
  {
    if files != [] {
      AllSized(s, files[..|files| - 1]);
    }
  }

  /** The single file after the buffers were written one after the other, each from the position of its file
      id on. */
  function Recorded(s: Setup, files: seq<seq<Packet>>): seq<byte>
    requires s.Valid() && forall j :: 0 <= j < |files| ==> Sized(s, files[j])
  {
    if files == [] then [] else
      var init, last := files[..|files| - 1], files[|files| - 1];
      WriteAt(Recorded(s, init), s.Stride() * |init|, Stripped(s, last))
  }

  lemma {:induction false} PacketsInFull(n: nat, files: seq<seq<Packet>>)
    requires forall j :: 0 <= j < |files| ==> |files[j]| == n
    ensures |AllPackets(files)| == n * |files|
  {
    if files != [] {
      PacketsInFull(n, files[..|files| - 1]);
      Distribute(|files|, 1, n);
    }
  }

  lemma Reorder(a: nat, b: nat, c: nat)
    ensures a * b * c == a * c * b
  {
  }

  lemma FullFilesEnd(s: Setup, files: seq<seq<Packet>>)
    requires s.Valid() && forall j :: 0 <= j < |files| ==> Sized(s, files[j]) && |files[j]| == s.numElems
    ensures StrippedLength(s, |AllPackets(files)|) == s.Stride() * |files|
  {
    PacketsInFull(s.numElems, files);
    Reorder(s.numElems, |files|, s.Kept());
  }

  /** The single file is the recording in order, every packet without its first bytes: the buffers neither
      overlap nor leave a gap. */
  lemma {:induction false} SingleFileIsTheRecording(s: Setup, files: seq<seq<Packet>>)
    requires s.Valid() && FullButLast(s, files)
    ensures Sized(s, AllPackets(files)) && Recorded(s, files) == Stripped(s, AllPackets(files))
  {
    AllSized(s, files);
    if files != [] {
      var init, last := files[..|files| - 1], files[|files| - 1];
      SingleFileIsTheRecording(s, init);
      FullFilesEnd(s, init);
      LengthOfStripped(s, AllPackets(init));
      WriteAtEnd(Recorded(s, init), Stripped(s, last));
      StrippedAppends(s, AllPackets(init), last);
    }
  }

  lemma RecordedMore(s: Setup, files: seq<seq<Packet>>, j: nat)
    requires s.Valid() && j < |files| && forall i :: 0 <= i < |files| ==> Sized(s, files[i])
    ensures Recorded(s, files[..j + 1]) == WriteAt(Recorded(s, files[..j]), s.Stride() * j, Stripped(s, files[j]))
  {
    assert files[..j + 1][..j] == files[..j];
  }

  /** All buffers of a recording, each with a recorder acquired for it: when no write failed and none was short,
      the file is the recording without the stripped bytes. */
  method RecordAll(s: Setup, files: seq<seq<Packet>>, every: nat, rets: (nat, int, int) -> int)
    returns (file: seq<byte>, failed: nat, short: nat)
    requires s.Valid() && FullButLast(s, files) && every >= s.packetSize
    ensures failed == short == 0 ==> Sized(s, AllPackets(files)) && file == Stripped(s, AllPackets(files))
  {
    file, failed, short := [], 0, 0;
    for j := 0 to |files|
      invariant failed == short == 0 ==> file == Recorded(s, files[..j])
    {
      var r := new Recorder(s, file, j);
      var err, done := r.RecordBuffer(files[j], every, (from, i) => rets(j, from, i));
      RecordedMore(s, files, j);
      assert done == |files[j]| ==> files[j][..done] == files[j];
      file, failed, short := r.file, failed + r.failed, short + r.short;
    }
    assert files[..|files|] == files;
    SingleFileIsTheRecording(s, files);
  }

  // ---------- Whose turn it is ----------

  /** Recorders wait for their file id to come up; releasing a file moves the counter on. */
  datatype Turns = Turns(next: nat, begun: set<nat>, finished: set<nat>)

  datatype Turn = Begin(id: nat) | Finish(id: nat)

  predicate MayTake(t: Turns, a: Turn) {
    match a
    case Begin(id) => id !in t.begun && t.next >= id
    case Finish(id) => id in t.begun && id !in t.finished
  }

  function Take(t: Turns, a: Turn): Turns {
    match a
    case Begin(id) => t.(begun := t.begun + {id})
    case Finish(id) => t.(next := t.next + 1, finished := t.finished + {id})
  }

  predicate Possible(turns: seq<Turn>) {
    turns == [] || (Possible(turns[..|turns| - 1]) && MayTake(After(turns[..|turns| - 1]), turns[|turns| - 1]))
  }

  function After(turns: seq<Turn>): Turns {
    if turns == [] then Turns(0, {}, {}) else Take(After(turns[..|turns| - 1]), turns[|turns| - 1])
  }

  /** The ids below `next` are finished; those begun are the same or one more. */
  ghost predicate InTurn(t: Turns) {
    && (forall id: nat :: id in t.finished <==> id < t.next)
    && ((forall id: nat :: id in t.begun <==> id < t.next) || (forall id: nat :: id in t.begun <==> id <= t.next))
  }

  lemma TakeInTurn(t: Turns, a: Turn)
    requires InTurn(t) && MayTake(t, a)
    ensures InTurn(Take(t, a))
  {
    var t' := Take(t, a);
    if a.Begin? {
      assert forall id: nat :: id in t'.begun <==> id <= t.next;
    } else {
      assert a.id == t.next;
      assert forall id: nat :: id in t'.begun <==> id < t'.next;
    }
  }

  /** Files are written one at a time, in the order of their ids, although a recorder only waits until the
      counter has reached its id. */
  lemma {:induction false} OneFileAtATime(turns: seq<Turn>)
    requires Possible(turns)
    ensures InTurn(After(turns))
  {
    if turns != [] {
      OneFileAtATime(turns[..|turns| - 1]);
      TakeInTurn(After(turns[..|turns| - 1]), turns[|turns| - 1]);
    }
  }

  /** Whose turn it is: that of the one file whose id the counter has, to begin if it has not begun and to finish if
      it has. So somebody can always go on. */
  lemma TurnIsNexts(turns: seq<Turn>, id: nat)
    requires Possible(turns)
    ensures var t := After(turns);
      && (MayTake(t, Begin(id)) <==> id == t.next && id !in t.begun)
      && (MayTake(t, Finish(id)) <==> id == t.next && id in t.begun)
  {
    OneFileAtATime(turns);
  }

  lemma TakeNext(turns: seq<Turn>, a: Turn)
    requires Possible(turns) && MayTake(After(turns), a)
    ensures Possible(turns + [a]) && After(turns + [a]) == Take(After(turns), a)
  {
    assert (turns + [a])[..|turns|] == turns;
  }

  /** The file whose turn it is goes on and finishes. */
  lemma FinishNext(turns: seq<Turn>) returns (more: seq<Turn>)
    requires Possible(turns)
    ensures Possible(turns + more) && After(turns + more).next == After(turns).next + 1
  {
    var t := After(turns);
    TurnIsNexts(turns, t.next);
    if t.next in t.begun {
      more := [Finish(t.next)];
      TakeNext(turns, Finish(t.next));
    } else {
      more := [Begin(t.next)] + [Finish(t.next)];
      TakeNext(turns, Begin(t.next));
      TurnIsNexts(turns + [Begin(t.next)], t.next);
      TakeNext(turns + [Begin(t.next)], Finish(t.next));
      assert turns + more == turns + [Begin(t.next)] + [Finish(t.next)];
    }
  }

  /** However far the files have come, all below any n can still be finished, and then, if no later one was,
      they are the only ones. */
  lemma {:induction false} AllCanFinish(turns: seq<Turn>, n: nat) returns (more: seq<Turn>)
    requires Possible(turns)
    ensures Possible(turns + more)
    ensures forall id: nat :: id in After(turns + more).finished <==> id < n || id in After(turns).finished
    decreases n - After(turns).next
  {
    OneFileAtATime(turns);
    if n <= After(turns).next {
      more := [];
      assert turns + more == turns;
    } else {
      var step := FinishNext(turns);
      var rest := AllCanFinish(turns + step, n);
      OneFileAtATime(turns + step);
      more := step + rest;
      assert turns + more == turns + step + rest;
    }
  }
}
