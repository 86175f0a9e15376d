/** The threads of a multistream transfer at work on their shares, and what sender and receiver make of the
    same packets. */
module Striping {
  import opened Bytes
  import opened Multistream

  datatype Status = AllFull | CleanExit | Error

  /** The slots one thread works on: those of its first `count` packets in the buffer. */
  datatype Share = Share(s: int, start: int, t: int, count: nat) {
    function At(j: nat): int {
      SlotAt(s, start, t, j)
    }

    predicate Inside(n: nat) {
      forall j :: 0 <= j < count ==> 0 <= At(j) < n
    }

    predicate Valid(n: nat) {
      s > 0 && Inside(n)
    }

    lemma Distinct(j: nat, k: nat)
      requires s > 0 && j < k
      ensures At(j) < At(k)
    {
      AtLeastOnce(k - j, s);
      assert (k - j) * s == k * s - j * s;
    }

    lemma NextAt(j: nat)
      ensures At(j + 1) == At(j) + s
    {
    }
  }

  predicate AllSized(packets: seq<Packet>, size: nat) {
    forall k :: 0 <= k < |packets| ==> |packets[k]| == size
  }

  /** The share of a stream that has arrived: the first `ready` packets are in their slots, every slot of no
      concern to the thread is as it was. */
  ghost predicate Stored(share: Share, was: seq<Packet>, now: seq<Packet>, stream: seq<Packet>, ready: nat)
    requires ready <= share.count && ready <= |stream| && share.Valid(|was|) && |now| == |was|
  {
    && (forall j :: 0 <= j < ready ==> now[share.At(j)] == stream[j])
    && (forall i :: 0 <= i < |was| && (forall j :: 0 <= j < share.count ==> share.At(j) != i) ==> now[i] == was[i])
  }

  lemma StoredKept(share: Share, was: seq<Packet>, now: seq<Packet>, stream: seq<Packet>, ready: nat, p: Packet)
    requires ready < share.count && ready <= |stream| && share.Valid(|was|) && |now| == |was|
    requires Stored(share, was, now, stream, ready)
    ensures Stored(share, was, now[share.At(ready) := p], stream, ready)
  {
    forall j | 0 <= j < ready
      ensures share.At(j) != share.At(ready)
    {
      share.Distinct(j, ready);
    }
  }

  lemma StoredMore(share: Share, was: seq<Packet>, now: seq<Packet>, stream: seq<Packet>, ready: nat)
    requires ready < share.count && ready < |stream| && share.Valid(|was|) && |now| == |was|
    requires Stored(share, was, now, stream, ready) && now[share.At(ready)] == stream[ready]
    ensures Stored(share, was, now, stream, ready + 1)
  {
  }

  /** A piece of a packet arrives in its slot, behind the bytes that are there already. */
  method StorePiece(buf: array<Packet>, spot: nat, offset: nat, packet: Packet, err: nat, size: nat) returns (p: Packet)
    requires spot < buf.Length && AllSized(buf[..], size) && |packet| == size && 0 < err && offset + err <= size
    requires offset > 0 ==> buf[spot][..offset] == packet[..offset]
    modifies buf
    ensures buf[..] == old(buf[..])[spot := p]
    ensures AllSized(buf[..], size) && buf[spot][..offset + err] == packet[..offset + err]
  {
    p := buf[spot][..offset] + packet[offset..offset + err] + buf[spot][offset + err..];
    assert packet[..offset + err] == packet[..offset] + packet[offset..offset + err];
    buf[spot] := p;
    assert buf[..] == old(buf[..])[spot := p];
  }

  /** What a call asking for `want` bytes of the current packet returns: a failure, the end of the stream, or
      some of the bytes. */
  function Returned(answers: seq<int>, call: nat, want: nat, more: bool): (r: int)
    ensures r <= want
  {
    if !more || call >= |answers| then 0
    else if answers[call] > want then want else answers[call]
  }

  /** A socket that gives or takes something in each of its first n calls. */
  predicate Steady(answers: seq<int>, n: nat) {
    |answers| >= n && forall c :: 0 <= c < n ==> answers[c] > 0
  }

  /** Steady for as many calls as so many packets have bytes. */
  predicate SteadyFor(answers: seq<int>, size: nat, packets: nat) {
    Steady(answers, size * packets)
  }

  /** Why a thread stopped after this many calls that transferred something; `left` says whether there is
      anything left in the stream. */
  predicate Explains(status: Status, answers: seq<int>, calls: nat, left: bool) {
    && calls <= |answers| && (forall c :: 0 <= c < calls ==> answers[c] > 0)
    && match status
       case AllFull => true
       case Error => calls < |answers| && answers[calls] < 0 && left
       case CleanExit => calls == |answers| || answers[calls] == 0 || !left
  }

  /** The bytes of so many packets. */
  function BytesOf(size: nat, packets: nat): nat {
    if packets == 0 then 0 else BytesOf(size, packets - 1) + size
  }

  lemma {:induction false} BytesAre(size: nat, packets: nat)
    ensures BytesOf(size, packets) == size * packets
  {
    if packets > 0 {
      BytesAre(size, packets - 1);
      assert size * packets == size * (packets - 1) + size;
    }
  }

  lemma {:induction false} BytesGrow(size: nat, a: nat, b: nat)
    requires a <= b
    ensures BytesOf(size, a) <= BytesOf(size, b)
    decreases b
  {
    if a < b {
      BytesGrow(size, a, b - 1);
    }
  }

  /** A thread on a steady socket does not stop before its last packet unless its stream has ended. */
  lemma SteadyFinishes(status: Status, answers: seq<int>, calls: nat, left: bool, size: nat, done: nat, offset: nat,
                       count: nat)
    requires Explains(status, answers, calls, left) && calls <= BytesOf(size, done) + offset && offset < size
    requires (status == AllFull <==> done == count) && done <= count && left
    ensures SteadyFor(answers, size, count) ==> status == AllFull
  {
    BytesAre(size, count);
    if done < count {
      BytesGrow(size, done + 1, count);
    }
  }

  /** A thread receives its share of a buffer: packet by packet, each in as many pieces as the socket gives. It
      has all of it unless a call failed or the stream ended, and it has that on a steady socket if and only if
      the stream is long enough. */
  method ReceiveShare(buf: array<Packet>, share: Share, size: nat, stream: seq<Packet>, answers: seq<int>)
    returns (status: Status, bytesReceived: nat, ready: nat, ghost calls: nat)
    requires share.Valid(buf.Length) && size > 0 && AllSized(buf[..], size) && AllSized(stream, size)
    modifies buf
    ensures AllSized(buf[..], size) && ready <= share.count && ready <= |stream| && bytesReceived == size * ready
    ensures Stored(share, old(buf[..]), buf[..], stream, ready)
    ensures (status == AllFull <==> ready == share.count) && Explains(status, answers, calls, ready < |stream|)
    ensures SteadyFor(answers, size, share.count) ==> (status == AllFull <==> share.count <= |stream|)
  {
    ghost var was := buf[..];
    var spot, offset, done, call: nat := share.At(0), 0, 0, 0;
    status := AllFull;
    while done < share.count && status == AllFull
      invariant done <= share.count && done <= |stream| && spot == share.At(done) && 0 <= offset < size
      invariant Explains(status, answers, call, done < |stream|) && (done == share.count ==> status == AllFull)
      invariant call <= BytesOf(size, done) + offset
      invariant AllSized(buf[..], size) && Stored(share, was, buf[..], stream, done)
      invariant offset > 0 ==> done < share.count && done < |stream| && buf[spot][..offset] == stream[done][..offset]
      decreases if status == AllFull then 1 else 0, |answers| - call
    {
      var err := Returned(answers, call, size - offset, done < |stream|);
      if err < 0 {
        status := Error;
      } else if err == 0 {
        status := CleanExit;
      } else {
        ghost var before := buf[..];
        var p := StorePiece(buf, spot, offset, stream[done], err, size);
        StoredKept(share, was, before, stream, done, p);
        if err + offset >= size {
          assert buf[spot] == stream[done];
          StoredMore(share, was, buf[..], stream, done);
          share.NextAt(done);
          done := done + 1;
          spot := spot + share.s;
          offset := 0;
        } else {
          offset := offset + err;
        }
        call := call + 1;
      }
    }
    bytesReceived := size * done;
    ready, calls := done, call;
    if ready < |stream| {
      SteadyFinishes(status, answers, calls, true, size, ready, offset, share.count);
    }
  }

  /** The packets a thread sends out of a buffer. */
  function Sends(buf: seq<Packet>, share: Share, upTo: nat): (r: seq<Packet>)
    requires share.Inside(|buf|) && upTo <= share.count
    ensures |r| == upTo
  {
    seq(upTo, j requires 0 <= j < upTo => buf[share.At(j)])
  }

  function Flat(packets: seq<Packet>): seq<byte> {
    if packets == [] then [] else Flat(packets[..|packets| - 1]) + packets[|packets| - 1]
  }

  /** The first `done` packets of the share are on the wire, and of the next one what `partial` says. */
  predicate OnWire(buf: seq<Packet>, share: Share, done: nat, wire: seq<byte>, partial: seq<byte>)
    requires share.Inside(|buf|) && done <= share.count
  {
    && wire == Flat(Sends(buf, share, done)) + partial
    && (partial != [] ==> done < share.count && partial <= buf[share.At(done)])
  }

  lemma WireMore(buf: seq<Packet>, share: Share, done: nat, wire: seq<byte>, partial: seq<byte>, piece: seq<byte>)
    requires share.Inside(|buf|) && done < share.count && OnWire(buf, share, done, wire, partial)
    requires partial + piece <= buf[share.At(done)]
    ensures OnWire(buf, share, done, wire + piece, partial + piece)
  {
    assert Flat(Sends(buf, share, done)) + partial + piece == Flat(Sends(buf, share, done)) + (partial + piece);
  }

  lemma WireNext(buf: seq<Packet>, share: Share, done: nat, wire: seq<byte>, partial: seq<byte>)
    requires share.Inside(|buf|) && done < share.count && OnWire(buf, share, done, wire, partial)
    requires partial == buf[share.At(done)]
    ensures OnWire(buf, share, done + 1, wire, [])
  {
    assert Sends(buf, share, done + 1)[..done] == Sends(buf, share, done);
  }

  /** The piece of a packet that a call sends goes on where the last one stopped. */
  lemma PieceFollows(packet: Packet, partial: seq<byte>, err: nat)
    requires partial <= packet && |partial| + err <= |packet|
    ensures partial + packet[|partial|..|partial| + err] == packet[..|partial| + err]
  {
  }

  /** A thread sends its share of a buffer, each packet in as many pieces as the socket takes; all of it unless
      a call failed. */
  method SendShare(buf: array<Packet>, share: Share, size: nat, answers: seq<int>)
    returns (status: Status, wire: seq<byte>, bytesSent: nat, ready: nat, partial: seq<byte>, ghost calls: nat)
    requires share.Valid(buf.Length) && size > 0 && AllSized(buf[..], size)
    ensures ready <= share.count && bytesSent == size * ready
    ensures wire == Flat(Sends(buf[..], share, ready)) + partial
    ensures status == AllFull <==> ready == share.count
    ensures Explains(status, answers, calls, true) && (SteadyFor(answers, size, share.count) ==> status == AllFull)
    ensures partial != [] ==> ready < share.count && partial <= buf[share.At(ready)]
  {
    var spot, offset, done, call: nat := share.At(0), 0, 0, 0;
    status, wire, partial := AllFull, [], [];
    while done < share.count && status == AllFull
      invariant done <= share.count && spot == share.At(done) && 0 <= offset < size && |partial| == offset
      invariant Explains(status, answers, call, true) && (done == share.count ==> status == AllFull)
      invariant call <= BytesOf(size, done) + offset
      invariant OnWire(buf[..], share, done, wire, partial)
      decreases if status == AllFull then 1 else 0, |answers| - call
    {
      var err := Returned(answers, call, size - offset, true);
      if err < 0 {
        status := Error;
      } else if err == 0 {
        status := CleanExit;
      } else {
        var piece := buf[spot][offset..offset + err];
        PieceFollows(buf[spot], partial, err);
        WireMore(buf[..], share, done, wire, partial, piece);
        wire := wire + piece;
        partial := partial + piece;
        if err + offset >= size {
          WireNext(buf[..], share, done, wire, partial);
          partial := [];
          share.NextAt(done);
          done := done + 1;
          spot := spot + share.s;
          offset := 0;
        } else {
          offset := offset + err;
        }
        call := call + 1;
      }
    }
    bytesSent := size * done;
    ready, calls := done, call;
    SteadyFinishes(status, answers, calls, true, size, ready, offset, share.count);
  }

  // ---------- Whole transfers ----------

  function Total(bufs: seq<seq<Packet>>): seq<Packet> {
    if bufs == [] then [] else Total(bufs[..|bufs| - 1]) + bufs[|bufs| - 1]
  }

  /** Every buffer reaches at least the end of the round the one before it broke off. */
  predicate Rounds(bufs: seq<seq<Packet>>, s: int, limit: nat)
    requires s > 0
  {
    bufs == [] ||
      var init, last := bufs[..|bufs| - 1], bufs[|bufs| - 1];
      Rounds(init, s, limit) && s - |Total(init)| % s <= |last| < limit
  }

  /** The end remainder the sender has after these buffers. */
  function SenderEnd(bufs: seq<seq<Packet>>, s: int): nat
    requires s > 0
  {
    if bufs == [] then 0 else NextSenderEnd(|bufs[|bufs| - 1]|, s, SenderEnd(bufs[..|bufs| - 1], s))
  }

  /** The end remainder the receiver has after these buffers; the first is worked out on its own. */
  function ReceiverEnd(bufs: seq<seq<Packet>>, s: int): nat
    requires s > 0
  {
    if bufs == [] then 0
    else if |bufs| == 1 then |bufs[0]| % s
    else NextReceiverEnd(|bufs[|bufs| - 1]|, s, ReceiverEnd(bufs[..|bufs| - 1], s))
  }

  /** On both sides the remainder is that of all packets so far. */
  lemma {:induction false} SenderEndIs(bufs: seq<seq<Packet>>, s: int)
    requires Streams(s) && Rounds(bufs, s, UINT64)
    ensures SenderEnd(bufs, s) == |Total(bufs)| % s
  {
    if bufs != [] {
      var init, last := bufs[..|bufs| - 1], bufs[|bufs| - 1];
      SenderEndIs(init, s);
      NextEnds(|Total(init)|, |last|, s, SenderEnd(init, s));
    }
  }

  lemma {:induction false} ReceiverEndIs(bufs: seq<seq<Packet>>, s: int)
    requires Streams(s) && Rounds(bufs, s, UINT32)
    ensures ReceiverEnd(bufs, s) == |Total(bufs)| % s
  {
    if |bufs| == 1 {
      assert Total(bufs[..0]) == [];
      assert Total(bufs) == bufs[0];
    } else if bufs != [] {
      var init, last := bufs[..|bufs| - 1], bufs[|bufs| - 1];
      ReceiverEndIs(init, s);
      NextEnds(|Total(init)|, |last|, s, ReceiverEnd(init, s));
    }
  }

  /** The share the arithmetic of a thread gives it. */
  function ShareOf(elems: nat, s: int, start: int, end: int, t: int): Share
    requires s > 0
  {
    Share(s, start, t, MaxPackets(elems, s, start, end, t))
  }

  lemma ShareIsInside(g: nat, n: nat, s: int, t: nat)
    requires Streams(s) && t < s && s - g % s <= n < UINT64
    ensures ShareOf(n, s, g % s, (g + n) % s, t).Valid(n)
  {
    var share := ShareOf(n, s, g % s, (g + n) % s, t);
    forall j | 0 <= j < share.count
      ensures 0 <= share.At(j) < n
    {
      SlotAtIs(g, n, s, t, j);
    }
  }

  /** Stream t as it should be: packets t, t + s, t + 2s, ... */
  function Lane(packets: seq<Packet>, s: int, t: nat): (r: seq<Packet>)
    requires s > 0 && t < s
    ensures |r| == Dealt(|packets|, s, t)
  {
    seq(Dealt(|packets|, s, t), q requires 0 <= q < Dealt(|packets|, s, t) =>
      DealtOrder(|packets|, s, t, q);
      packets[q * s + t])
  }

  /** Everything the sender's thread t sends. */
  function Sent(bufs: seq<seq<Packet>>, s: int, t: nat): seq<Packet>
    requires Streams(s) && t < s && Rounds(bufs, s, UINT64)
  {
    if bufs == [] then [] else
      var init, last := bufs[..|bufs| - 1], bufs[|bufs| - 1];
      SenderEndIs(init, s);
      SenderEndIs(bufs, s);
      ShareIsInside(|Total(init)|, |last|, s, t);
      var share := ShareOf(|last|, s, SenderEnd(init, s), SenderEnd(bufs, s), t);
      Sent(init, s, t) + Sends(last, share, share.count)
  }

  lemma {:induction false} FlatJoins(a: seq<Packet>, b: seq<Packet>)
    ensures Flat(a + b) == Flat(a) + Flat(b)
  {
    if b == [] {
      assert a + b == a;
    } else {
      FlatJoins(a, b[..|b| - 1]);
      assert (a + b)[..|a + b| - 1] == a + b[..|b| - 1];
    }
  }

  /** Each connection got the share of its thread. */
  ghost predicate SentBy(buf: seq<Packet>, s: int, start: nat, end: nat, wires: seq<seq<byte>>)
    requires s > 0
  {
    |wires| == s && forall t: nat :: t < s ==>
      var share := ShareOf(|buf|, s, start, end, t);
      share.Inside(|buf|) && wires[t] == Flat(Sends(buf, share, share.count))
  }

  /** All threads of the sender on one buffer. */
  method SendBuffer(buf: array<Packet>, s: int, ghost g: nat, start: nat, end: nat, size: nat, answers: nat -> seq<int>)
    returns (full: bool, wires: seq<seq<byte>>)
    requires Streams(s) && s - g % s <= buf.Length < UINT64 && start == g % s && end == (g + buf.Length) % s
    requires size > 0 && AllSized(buf[..], size)
    ensures full ==> SentBy(buf[..], s, start, end, wires)
    ensures (forall t: nat :: t < s ==> SteadyFor(answers(t), size, MaxPackets(buf.Length, s, start, end, t))) ==> full
  {
    full, wires := true, [];
    var t: nat := 0;
    while t < s && full
      invariant t <= s && (full ==> |wires| == t)
      invariant !full ==>
        exists u: nat :: u < s && !SteadyFor(answers(u), size, MaxPackets(buf.Length, s, start, end, u))
      invariant full ==> forall u: nat :: u < t ==>
        var share := ShareOf(buf.Length, s, start, end, u);
        share.Inside(buf.Length) && wires[u] == Flat(Sends(buf[..], share, share.count))
    {
      ShareIsInside(g, buf.Length, s, t);
      var share := ShareOf(buf.Length, s, start, end, t);
      var status, wire, bytes, ready, partial, calls := SendShare(buf, share, size, answers(t));
      full := status == AllFull;
      wires := wires + [wire];
      t := t + 1;
    }
  }

  lemma SentOneMore(bufs: seq<seq<Packet>>, i: nat, s: int, t: nat, share: Share)
    requires Streams(s) && t < s && i < |bufs| && Rounds(bufs[..i + 1], s, UINT64) && Rounds(bufs[..i], s, UINT64)
    requires share == ShareOf(|bufs[i]|, s, SenderEnd(bufs[..i], s), SenderEnd(bufs[..i + 1], s), t)
    requires share.Inside(|bufs[i]|)
    ensures Flat(Sent(bufs[..i + 1], s, t)) == Flat(Sent(bufs[..i], s, t)) + Flat(Sends(bufs[i], share, share.count))
  {
    assert bufs[..i + 1][..i] == bufs[..i];
    FlatJoins(Sent(bufs[..i], s, t), Sends(bufs[i], share, share.count));
  }

  lemma {:induction false} RoundsPrefix(bufs: seq<seq<Packet>>, s: int, limit: nat, i: nat)
    requires s > 0 && Rounds(bufs, s, limit) && i <= |bufs|
    ensures Rounds(bufs[..i], s, limit)
    decreases |bufs|
  {
    if i == |bufs| {
      assert bufs[..i] == bufs;
    } else {
      RoundsPrefix(bufs[..|bufs| - 1], s, limit, i);
      assert bufs[..|bufs| - 1][..i] == bufs[..i];
    }
  }

  lemma NextSend(bufs: seq<seq<Packet>>, s: int, i: nat)
    requires Streams(s) && Rounds(bufs, s, UINT64) && i < |bufs|
    ensures Rounds(bufs[..i], s, UINT64) && Rounds(bufs[..i + 1], s, UINT64)
    ensures var g := |Total(bufs[..i])|;
      && s - g % s <= |bufs[i]| < UINT64 && SenderEnd(bufs[..i], s) == g % s
      && SenderEnd(bufs[..i + 1], s) == NextSenderEnd(|bufs[i]|, s, SenderEnd(bufs[..i], s)) == (g + |bufs[i]|) % s
  {
    RoundsPrefix(bufs, s, UINT64, i);
    RoundsPrefix(bufs, s, UINT64, i + 1);
    assert bufs[..i + 1][..i] == bufs[..i];
    SenderEndIs(bufs[..i], s);
    NextEnds(|Total(bufs[..i])|, |bufs[i]|, s, SenderEnd(bufs[..i], s));
  }

  /** The same from a buffer's contents. */
  method SendNext(packets: seq<Packet>, s: int, ghost g: nat, start: nat, end: nat, size: nat, answers: nat -> seq<int>)
    returns (full: bool, wires: seq<seq<byte>>)
    requires Streams(s) && s - g % s <= |packets| < UINT64 && start == g % s && end == (g + |packets|) % s
    requires size > 0 && AllSized(packets, size)
    ensures full ==> SentBy(packets, s, start, end, wires)
    ensures (forall t: nat :: t < s ==> SteadyFor(answers(t), size, MaxPackets(|packets|, s, start, end, t))) ==> full
  {
    var buf := new Packet[|packets|](k requires 0 <= k < |packets| => packets[k]);
    assert buf[..] == packets;
    full, wires := SendBuffer(buf, s, g, start, end, size, answers);
  }

  /** What each thread has sent, appended to its connection. */
  method WiresGrow(ghost bufs: seq<seq<Packet>>, ghost i: nat, s: int, ghost start: nat, ghost end: nat,
                   wires: seq<seq<byte>>, pieces: seq<seq<byte>>)
    returns (more: seq<seq<byte>>)
    requires Streams(s) && i < |bufs| && Rounds(bufs[..i + 1], s, UINT64) && Rounds(bufs[..i], s, UINT64)
    requires start == SenderEnd(bufs[..i], s) && end == SenderEnd(bufs[..i + 1], s)
    requires |wires| == s && forall t: nat :: t < s ==> wires[t] == Flat(Sent(bufs[..i], s, t))
    requires SentBy(bufs[i], s, start, end, pieces)
    ensures |more| == s && forall t: nat :: t < s ==> more[t] == Flat(Sent(bufs[..i + 1], s, t))
  {
    forall t: nat | t < s
      ensures wires[t] + pieces[t] == Flat(Sent(bufs[..i + 1], s, t))
    {
      SentOneMore(bufs, i, s, t, ShareOf(|bufs[i]|, s, start, end, t));
    }
    more := seq(s, t requires 0 <= t < s && |wires| == |pieces| == s => wires[t] + pieces[t]);
  }

  /** No connection fails while buffer i is sent. */
  ghost predicate SentSteadily(bufs: seq<seq<Packet>>, s: int, size: nat, answers: (nat, nat) -> seq<int>, i: nat)
    requires s > 0 && i < |bufs|
  {
    forall t: nat :: t < s ==>
      SteadyFor(answers(i, t), size,
                MaxPackets(|bufs[i]|, s, SenderEnd(bufs[..i], s), SenderEnd(bufs[..i + 1], s), t))
  }

  /** The sender over a whole recording: each connection carries its stream, packet after packet, unless one of
      them fails. */
  method SendLoop(bufs: seq<seq<Packet>>, s: int, size: nat, answers: (nat, nat) -> seq<int>)
    returns (full: bool, wires: seq<seq<byte>>)
    requires Streams(s) && Rounds(bufs, s, UINT64) && size > 0
    requires forall i :: 0 <= i < |bufs| ==> AllSized(bufs[i], size)
    ensures full ==> |wires| == s && forall t: nat :: t < s ==> wires[t] == Flat(Sent(bufs, s, t))
    ensures (forall i :: 0 <= i < |bufs| ==> SentSteadily(bufs, s, size, answers, i)) ==> full
  {
    full := true;
    wires := seq(s, _ => []);
    var start, end, i: nat := 0, 0, 0;
    assert bufs[..0] == [];
    while i < |bufs| && full
      invariant i <= |bufs| && Rounds(bufs[..i], s, UINT64) && end == SenderEnd(bufs[..i], s)
      invariant full ==> |wires| == s && forall t: nat :: t < s ==> wires[t] == Flat(Sent(bufs[..i], s, t))
      invariant !full ==> exists j :: 0 <= j < |bufs| && !SentSteadily(bufs, s, size, answers, j)
    {
      NextSend(bufs, s, i);
      start := end;
      end := NextSenderEnd(|bufs[i]|, s, end);
      var pieces;
      full, pieces := SendNext(bufs[i], s, |Total(bufs[..i])|, start, end, size, (t: nat) => answers(i, t));
      if full {
        wires := WiresGrow(bufs, i, s, start, end, wires, pieces);
      } else {
        assert !SentSteadily(bufs, s, size, answers, i);
      }
      i := i + 1;
    }
    assert full ==> bufs[..i] == bufs;
  }

  lemma LaneGrows(packets: seq<Packet>, buf: seq<Packet>, s: int, t: nat, share: Share)
    requires Streams(s) && t < s && s - |packets| % s <= |buf| < UINT64
    requires share == ShareOf(|buf|, s, |packets| % s, (|packets| + |buf|) % s, t) && share.Valid(|buf|)
    ensures Lane(packets + buf, s, t) == Lane(packets, s, t) + Sends(buf, share, share.count)
  {
    var g, d := |packets|, Dealt(|packets|, s, t);
    var left, right := Lane(packets + buf, s, t), Lane(packets, s, t) + Sends(buf, share, share.count);
    CountIsDealt(g, |buf|, s, t);
    forall q | 0 <= q < |left|
      ensures left[q] == right[q]
    {
      DealtOrder(g, s, t, q);
      if q >= d {
        SlotAtIs(g, |buf|, s, t, q - d);
      }
    }
  }

  /** The sender deals packet k of the whole recording to stream k mod s, whatever the buffer sizes. */
  lemma {:induction false} SentIsLane(bufs: seq<seq<Packet>>, s: int, t: nat)
    requires Streams(s) && t < s && Rounds(bufs, s, UINT64)
    ensures Sent(bufs, s, t) == Lane(Total(bufs), s, t)
  {
    if bufs != [] {
      var init, last := bufs[..|bufs| - 1], bufs[|bufs| - 1];
      SentIsLane(init, s, t);
      SenderEndIs(init, s);
      SenderEndIs(bufs, s);
      ShareIsInside(|Total(init)|, |last|, s, t);
      LaneGrows(Total(init), last, s, t, ShareOf(|last|, s, SenderEnd(init, s), SenderEnd(bufs, s), t));
    }
  }

  /** How much of stream t the receiver has taken for these buffers. */
  function Consumed(bufs: seq<seq<Packet>>, s: int, t: nat): nat
    requires s > 0
  {
    if bufs == [] then 0 else
      var init, last := bufs[..|bufs| - 1], bufs[|bufs| - 1];
      Consumed(init, s, t) + MaxPackets(|last|, s, ReceiverEnd(init, s), ReceiverEnd(bufs, s), t)
  }

  lemma {:induction false} ConsumedIsDealt(bufs: seq<seq<Packet>>, s: int, t: nat)
    requires Streams(s) && t < s && Rounds(bufs, s, UINT32)
    ensures Consumed(bufs, s, t) == Dealt(|Total(bufs)|, s, t)
  {
    if bufs != [] {
      var init, last := bufs[..|bufs| - 1], bufs[|bufs| - 1];
      ConsumedIsDealt(init, s, t);
      ReceiverEndIs(init, s);
      ReceiverEndIs(bufs, s);
      CountIsDealt(|Total(init)|, |last|, s, t);
    }
  }

  /** A thread that was AllFull has its share of the buffer from this place of its stream on. */
  predicate Takes(buf: seq<Packet>, share: Share, stream: seq<Packet>, from: nat)
    requires share.Inside(|buf|)
  {
    from + share.count <= |stream| && forall j :: 0 <= j < share.count ==> buf[share.At(j)] == stream[from + j]
  }

  /** That is what the loop of a thread leaves behind. */
  lemma StoredTakes(share: Share, was: seq<Packet>, now: seq<Packet>, stream: seq<Packet>, from: nat)
    requires from <= |stream| && share.count <= |stream[from..]| && share.Valid(|was|) && |now| == |was|
    requires Stored(share, was, now, stream[from..], share.count)
    ensures Takes(now, share, stream, from)
  {
  }

  /** One full buffer of the receiver. */
  ghost predicate Filled(buf: seq<Packet>, s: int, start: nat, end: nat, streams: nat -> seq<Packet>, from: nat -> nat)
    requires s > 0
  {
    forall t: nat :: t < s ==>
      var share := ShareOf(|buf|, s, start, end, t);
      share.Inside(|buf|) && Takes(buf, share, streams(t), from(t))
  }

  /** The stream has all of the share. */
  predicate Enough(n: nat, s: int, start: int, end: int, t: nat, stream: seq<Packet>, from: nat)
    requires s > 0
  {
    from + MaxPackets(n, s, start, end, t) <= |stream|
  }

  /** The thread is not stopped by its socket, nor by the end of its stream. */
  predicate CanFinish(n: nat, s: int, start: int, end: int, size: nat, t: nat, answers: seq<int>, stream: seq<Packet>,
                      from: nat)
    requires s > 0
  {
    SteadyFor(answers, size, MaxPackets(n, s, start, end, t)) && Enough(n, s, start, end, t, stream, from)
  }

  lemma OthersKeepTheirs(n: nat, s: int, start: nat, end: nat, t: nat, u: nat, was: seq<Packet>, now: seq<Packet>,
                         stream: seq<Packet>, ready: nat, theirs: seq<Packet>, from: nat)
    requires Streams(s) && start < s && t < s && u < s && t != u && |was| == |now| == n
    requires ShareOf(n, s, start, end, t).Valid(n) && ShareOf(n, s, start, end, u).Valid(n)
    requires ready <= ShareOf(n, s, start, end, t).count && ready <= |stream|
    requires Stored(ShareOf(n, s, start, end, t), was, now, stream, ready)
    requires Takes(was, ShareOf(n, s, start, end, u), theirs, from)
    ensures Takes(now, ShareOf(n, s, start, end, u), theirs, from)
  {
    var mine, other := ShareOf(n, s, start, end, t), ShareOf(n, s, start, end, u);
    forall j | 0 <= j < other.count
      ensures now[other.At(j)] == theirs[from + j]
    {
      forall i | 0 <= i < mine.count
        ensures mine.At(i) != other.At(j)
      {
        if SlotAt(s, start, t, i) == SlotAt(s, start, u, j) {
          SlotsAreDisjoint(s, start, t, i, u, j);
        }
      }
      assert now[other.At(j)] == was[other.At(j)];
    }
  }

  /** All threads on one buffer, one after the other: as they work on different slots, any other interleaving
      leaves the same memory. `g` packets came before; each stream goes on where its thread stopped. */
  method ReceiveBuffer(buf: array<Packet>, s: int, ghost g: nat, start: nat, end: nat, size: nat,
                       streams: nat -> seq<Packet>, from: nat -> nat, answers: nat -> seq<int>)
    returns (full: bool)
    requires Streams(s) && s - g % s <= buf.Length < UINT64 && start == g % s && end == (g + buf.Length) % s
    requires size > 0 && AllSized(buf[..], size)
    requires forall t: nat :: t < s ==> AllSized(streams(t), size) && from(t) <= |streams(t)|
    modifies buf
    ensures AllSized(buf[..], size)
    ensures full ==> Filled(buf[..], s, start, end, streams, from)
    ensures full ==> forall t: nat :: t < s ==> Enough(buf.Length, s, start, end, t, streams(t), from(t))
    ensures !full ==>
      exists t: nat :: t < s && !CanFinish(buf.Length, s, start, end, size, t, answers(t), streams(t), from(t))
  {
    ghost var n := buf.Length;
    full := true;
    var t: nat := 0;
    while t < s
      invariant t <= s && AllSized(buf[..], size)
      invariant full ==> forall u: nat :: u < t ==>
        ShareOf(n, s, start, end, u).Inside(n) && Takes(buf[..], ShareOf(n, s, start, end, u), streams(u), from(u))
      invariant !full ==>
        exists u: nat :: u < s && !CanFinish(n, s, start, end, size, u, answers(u), streams(u), from(u))
    {
      ghost var was := buf[..];
      ShareIsInside(g, buf.Length, s, t);
      var share := ShareOf(buf.Length, s, start, end, t);
      var status, bytes, ready, calls := ReceiveShare(buf, share, size, streams(t)[from(t)..], answers(t));
      if full && status == AllFull {
        StoredTakes(share, was, buf[..], streams(t), from(t));
        forall u: nat | u < t
          ensures Takes(buf[..], ShareOf(n, s, start, end, u), streams(u), from(u))
        {
          ShareIsInside(g, n, s, u);
          OthersKeepTheirs(n, s, start, end, t, u, was, buf[..], streams(t)[from(t)..], ready, streams(u), from(u));
        }
      } else {
        assert full ==> !CanFinish(n, s, start, end, size, t, answers(t), streams(t), from(t));
        full := false;
      }
      t := t + 1;
    }
  }

  ghost predicate Received(bufs: seq<seq<Packet>>, s: int, streams: nat -> seq<Packet>)
    requires s > 0
  {
    bufs == [] ||
      var init, last := bufs[..|bufs| - 1], bufs[|bufs| - 1];
      && Received(init, s, streams)
      && Filled(last, s, ReceiverEnd(init, s), ReceiverEnd(bufs, s), streams, (t: nat) => Consumed(init, s, t))
  }

  lemma OneMoreBuffer(bufs: seq<seq<Packet>>, buf: seq<Packet>, s: int, streams: nat -> seq<Packet>, end: nat)
    requires Streams(s) && Rounds(bufs, s, UINT32) && s <= |buf| < UINT32 && end == (|Total(bufs)| + |buf|) % s
    requires Received(bufs, s, streams)
    requires Filled(buf, s, ReceiverEnd(bufs, s), end, streams, (t: nat) => Consumed(bufs, s, t))
    ensures var more := bufs + [buf];
      && Rounds(more, s, UINT32) && ReceiverEnd(more, s) == end && |Total(more)| == |Total(bufs)| + |buf|
      && Received(more, s, streams)
      && forall t: nat :: t < s ==> Consumed(more, s, t) <= |streams(t)|
  {
    var more := bufs + [buf];
    assert more[..|more| - 1] == bufs && more[|more| - 1] == buf;
    ReceiverEndIs(bufs, s);
    ReceiverEndIs(more, s);
    forall t: nat | t < s
      ensures Consumed(more, s, t) <= |streams(t)|
    {
      assert Takes(buf, ShareOf(|buf|, s, ReceiverEnd(bufs, s), end, t), streams(t), Consumed(bufs, s, t));
    }
  }

  /** The next buffer cannot be filled: a connection fails, or its stream ends before its share is there. */
  ghost predicate Stops(bufs: seq<seq<Packet>>, numElems: nat, s: int, size: nat, streams: nat -> seq<Packet>,
                        answers: (nat, nat) -> seq<int>)
    requires s > 0
  {
    exists t: nat :: t < s
      && !CanFinish(numElems, s, ReceiverEnd(bufs, s), (|Total(bufs)| + numElems) % s, size, t,
                    answers(|bufs|, t), streams(t), Consumed(bufs, s, t))
  }

  /** The buffers received so far, and the remainders with which the next one is received. */
  ghost predicate Resumes(bufs: seq<seq<Packet>>, numElems: nat, s: int, streams: nat -> seq<Packet>,
                          start: nat, end: nat)
    requires s > 0
  {
    && Rounds(bufs, s, UINT32) && Received(bufs, s, streams)
    && start == ReceiverEnd(bufs, s) == |Total(bufs)| % s && end == (|Total(bufs)| + numElems) % s
    && (forall t: nat :: t < s ==> Consumed(bufs, s, t) <= |streams(t)|)
    && (forall i :: 0 <= i < |bufs| ==> |bufs[i]| == numElems)
  }

  lemma ResumesMore(bufs: seq<seq<Packet>>, next: seq<Packet>, numElems: nat, s: int, streams: nat -> seq<Packet>,
                    start: nat, end: nat)
    requires Streams(s) && s <= numElems < UINT32 && Resumes(bufs, numElems, s, streams, start, end)
    requires |next| == numElems && Filled(next, s, start, end, streams, (t: nat) => Consumed(bufs, s, t))
    ensures Resumes(bufs + [next], numElems, s, streams, end, NextReceiverEnd(numElems, s, end))
  {
    OneMoreBuffer(bufs, next, s, streams, end);
    NextEnds(|Total(bufs)| + numElems, numElems, s, end);
  }

  /** Receives into a new buffer, from where the ones before stopped. */
  method ReceiveNext(ghost bufs: seq<seq<Packet>>, numElems: nat, s: int, size: nat, start: nat, end: nat,
                     streams: nat -> seq<Packet>, from: nat -> nat, ghost answers: (nat, nat) -> seq<int>,
                     calls: nat -> seq<int>)
    returns (full: bool, next: seq<Packet>)
    requires Streams(s) && s <= numElems < UINT32 && size > 0
    requires start == ReceiverEnd(bufs, s) == |Total(bufs)| % s && end == (|Total(bufs)| + numElems) % s
    requires forall t: nat :: t < s ==> AllSized(streams(t), size) && from(t) == Consumed(bufs, s, t) <= |streams(t)|
    requires forall t: nat :: t < s ==> calls(t) == answers(|bufs|, t)
    ensures full ==> |next| == numElems && Filled(next, s, start, end, streams, from)
    ensures !full ==> Stops(bufs, numElems, s, size, streams, answers)
  {
    var buf := new Packet[numElems](_ => seq(size, _ => 0));
    full := ReceiveBuffer(buf, s, |Total(bufs)|, start, end, size, streams, from, calls);
    next := buf[..];
    if !full {
      ghost var t: nat :| t < s && !CanFinish(numElems, s, start, end, size, t, calls(t), streams(t), from(t));
      assert !CanFinish(numElems, s, start, end, size, t, answers(|bufs|, t), streams(t), Consumed(bufs, s, t));
    }
  }

  /** The receiver's main loop: full buffers until a connection ends, with the remainders carried from one
      buffer to the next. */
  method ReceiveLoop(numElems: nat, s: int, size: nat, rounds: nat, streams: nat -> seq<Packet>,
                     answers: (nat, nat) -> seq<int>)
    returns (bufs: seq<seq<Packet>>)
    requires Streams(s) && s <= numElems < UINT32 && size > 0
    requires forall t: nat :: t < s ==> AllSized(streams(t), size)
    ensures Rounds(bufs, s, UINT32) && Received(bufs, s, streams)
    ensures forall i :: 0 <= i < |bufs| ==> |bufs[i]| == numElems
    ensures forall t: nat :: t < s ==> Consumed(bufs, s, t) <= |streams(t)|
    ensures |bufs| <= rounds && (|bufs| < rounds ==> Stops(bufs, numElems, s, size, streams, answers))
  {
    var start: nat, end: nat, running := 0, numElems % s, true;
    bufs := [];
    var i := 0;
    while i < rounds && running
      invariant Resumes(bufs, numElems, s, streams, start, end)
      invariant if running then |bufs| == i <= rounds
                else |bufs| < rounds && Stops(bufs, numElems, s, size, streams, answers)
    {
      var next;
      running, next := ReceiveNext(bufs, numElems, s, size, start, end, streams, (t: nat) => Consumed(bufs, s, t),
                                   answers, (t: nat) => answers(i, t));
      if running {
        ResumesMore(bufs, next, numElems, s, streams, start, end);
        bufs := bufs + [next];
        start := end;
        end := NextReceiverEnd(numElems, s, end);
      }
      i := i + 1;
    }
  }

  lemma LaneAt(packets: seq<Packet>, s: int, t: nat, q: nat)
    requires s > 0 && t < s && q < |Lane(packets, s, t)|
    ensures 0 <= q * s + t < |packets| && Lane(packets, s, t)[q] == packets[q * s + t]
  {
    DealtOrder(|packets|, s, t, q);
  }

  lemma TakenIsRight(buf: seq<Packet>, share: Share, lane: seq<Packet>, d: nat, j: nat, i: nat)
    requires share.Inside(|buf|) && j < share.count && share.At(j) == i && Takes(buf, share, lane, d)
    ensures i < |buf| && d + j < |lane| && buf[i] == lane[d + j]
  {
    assert buf[share.At(j)] == lane[d + j];
  }

  lemma SlotIsRight(buf: seq<Packet>, s: int, packets: seq<Packet>, share: Share, d: nat, j: nat, i: nat, t: nat,
                    x: int)
    requires s > 0 && t < s && share.Inside(|buf|) && j < share.count && share.At(j) == i && x == (d + j) * s + t
    requires Takes(buf, share, Lane(packets, s, t), d)
    ensures i < |buf| && 0 <= x < |packets| && buf[i] == packets[x]
  {
    TakenIsRight(buf, share, Lane(packets, s, t), d, j, i);
    LaneAt(packets, s, t, d + j);
  }

  /** All slots of a buffer, with its share of each stream taken, are the next packets of the recording. */
  lemma BufferIsRight(g: nat, buf: seq<Packet>, s: int, start: nat, end: nat, packets: seq<Packet>,
                      streams: nat -> seq<Packet>, from: nat -> nat)
    requires Streams(s) && s - g % s <= |buf| < UINT64 && start == g % s && end == (g + |buf|) % s
    requires forall t: nat :: t < s ==> streams(t) == Lane(packets, s, t) && from(t) == Dealt(g, s, t)
    requires Filled(buf, s, start, end, streams, from)
    ensures g + |buf| <= |packets| && buf == packets[g..g + |buf|]
  {
    forall i | 0 <= i < |buf|
      ensures g + i < |packets| && buf[i] == packets[g + i]
    {
      FilledAt(g, buf, s, start, end, packets, streams, from, i, (g + i) % s);
    }
    FilledAt(g, buf, s, start, end, packets, streams, from, |buf| - 1, (g + |buf| - 1) % s);
  }

  lemma FilledAt(g: nat, buf: seq<Packet>, s: int, start: nat, end: nat, packets: seq<Packet>,
                 streams: nat -> seq<Packet>, from: nat -> nat, i: nat, t: nat)
    requires Streams(s) && s - g % s <= |buf| < UINT64 && start == g % s && end == (g + |buf|) % s
    requires i < |buf| && t == (g + i) % s
    requires streams(t) == Lane(packets, s, t) && from(t) == Dealt(g, s, t)
    requires Filled(buf, s, start, end, streams, from)
    ensures g + i < |packets| && buf[i] == packets[g + i]
  {
    var share := ShareOf(|buf|, s, start, end, t);
    assert share.Inside(|buf|) && Takes(buf, share, streams(t), from(t));
    var j := TakenAs(g, |buf|, s, i, t, from(t));
    SlotIsRight(buf, s, packets, share, from(t), j, i, t, g + i);
  }

  lemma StreamsAreLanes(sent: seq<seq<Packet>>, init: seq<seq<Packet>>, s: int, streams: nat -> seq<Packet>,
                        from: nat -> nat)
    requires Streams(s) && Rounds(sent, s, UINT64) && Rounds(init, s, UINT32)
    requires forall t: nat :: t < s ==> streams(t) == Sent(sent, s, t) && from(t) == Consumed(init, s, t)
    ensures forall t: nat :: t < s ==> streams(t) == Lane(Total(sent), s, t) && from(t) == Dealt(|Total(init)|, s, t)
  {
    forall t: nat | t < s
      ensures streams(t) == Lane(Total(sent), s, t) && from(t) == Dealt(|Total(init)|, s, t)
    {
      SentIsLane(sent, s, t);
      ConsumedIsDealt(init, s, t);
    }
  }

  lemma NextBufferIsRight(sent: seq<seq<Packet>>, received: seq<seq<Packet>>, s: int, streams: nat -> seq<Packet>)
    requires Streams(s) && Rounds(sent, s, UINT64) && Rounds(received, s, UINT32) && received != []
    requires forall t: nat :: t < s ==> streams(t) == Sent(sent, s, t)
    requires Received(received, s, streams)
    ensures var g, last := |Total(received[..|received| - 1])|, received[|received| - 1];
      g + |last| <= |Total(sent)| && last == Total(sent)[g..g + |last|]
  {
    var init, last := received[..|received| - 1], received[|received| - 1];
    ReceiverEndIs(init, s);
    ReceiverEndIs(received, s);
    SharesAreRight(sent, init, last, s, ReceiverEnd(init, s), ReceiverEnd(received, s), streams,
                   (t: nat) => Consumed(init, s, t));
  }

  lemma SharesAreRight(sent: seq<seq<Packet>>, init: seq<seq<Packet>>, last: seq<Packet>, s: int, start: nat, end: nat,
                       streams: nat -> seq<Packet>, from: nat -> nat)
    requires Streams(s) && Rounds(sent, s, UINT64) && Rounds(init, s, UINT32)
    requires forall t: nat :: t < s ==> streams(t) == Sent(sent, s, t) && from(t) == Consumed(init, s, t)
    requires s - |Total(init)| % s <= |last| < UINT64
    requires start == |Total(init)| % s && end == (|Total(init)| + |last|) % s
    requires Filled(last, s, start, end, streams, from)
    ensures var g := |Total(init)|;
      g + |last| <= |Total(sent)| && last == Total(sent)[g..g + |last|]
  {
    StreamsAreLanes(sent, init, s, streams, from);
    BufferIsRight(|Total(init)|, last, s, start, end, Total(sent), streams, from);
  }

  /** The receiver undoes the sender: whatever buffer sizes each side uses, the full buffers received are the
      packets sent, in order, as long as every buffer reaches the end of the round it starts in. */
  lemma {:induction false} MergingUndoesDealing(sent: seq<seq<Packet>>, received: seq<seq<Packet>>, s: int,
                                                streams: nat -> seq<Packet>)
    requires Streams(s) && Rounds(sent, s, UINT64) && Rounds(received, s, UINT32)
    requires forall t: nat :: t < s ==> streams(t) == Sent(sent, s, t)
    requires Received(received, s, streams)
    ensures Total(received) <= Total(sent)
  {
    if received != [] {
      var init, last := received[..|received| - 1], received[|received| - 1];
      MergingUndoesDealing(sent, init, s, streams);
      NextBufferIsRight(sent, received, s, streams);
      PrefixGrows(Total(init), last, Total(sent));
    }
  }

  lemma PrefixGrows(a: seq<Packet>, b: seq<Packet>, p: seq<Packet>)
    requires a <= p && |a| + |b| <= |p| && b == p[|a|..|a| + |b|]
    ensures a + b <= p
  {
  }

  // ---------- How many buffers are filled ----------

  lemma DealtGrows(a: nat, b: nat, s: int, t: nat)
    requires s > 0 && t < s && a <= b
    ensures Dealt(a, s, t) <= Dealt(b, s, t)
  {
    DealtOrder(a, s, t, Dealt(b, s, t));
    DealtOrder(b, s, t, Dealt(b, s, t));
  }

  /** The thread that would take packet m, when there are m packets. */
  lemma OneStarves(m: nat, g: nat, n: nat, s: int, t: nat)
    requires Streams(s) && t == m % s && m < g + n
    ensures Dealt(m, s, t) < Dealt(g + n, s, t)
  {
    DealtOrder(m, s, t, m / s);
    DealtOrder(g + n, s, t, m / s);
  }

  ghost predicate AllEnough(n: nat, s: int, start: int, end: int, streams: nat -> seq<Packet>, from: nat -> nat)
    requires s > 0
  {
    forall t: nat :: t < s ==> Enough(n, s, start, end, t, streams(t), from(t))
  }

  /** With g packets taken already, the next n are there for every thread if and only if there are g + n. */
  lemma AllEnoughIff(packets: seq<Packet>, g: nat, n: nat, s: int, start: nat, end: nat,
                     streams: nat -> seq<Packet>, from: nat -> nat)
    requires Streams(s) && s - g % s <= n < UINT64 && start == g % s && end == (g + n) % s
    requires forall t: nat :: t < s ==> streams(t) == Lane(packets, s, t) && from(t) == Dealt(g, s, t)
    ensures AllEnough(n, s, start, end, streams, from) <==> g + n <= |packets|
  {
    forall t: nat | t < s
      ensures Enough(n, s, start, end, t, streams(t), from(t)) <==> Dealt(g + n, s, t) <= Dealt(|packets|, s, t)
    {
      CountIsDealt(g, n, s, t);
    }
    if g + n <= |packets| {
      forall t: nat | t < s
        ensures Dealt(g + n, s, t) <= Dealt(|packets|, s, t)
      {
        DealtGrows(g + n, |packets|, s, t);
      }
    } else {
      var t := |packets| % s;
      OneStarves(|packets|, g, n, s, t);
      assert !Enough(n, s, start, end, t, streams(t), from(t));
    }
  }

  lemma {:induction false} TotalLength(bufs: seq<seq<Packet>>, n: nat)
    requires forall i :: 0 <= i < |bufs| ==> |bufs[i]| == n
    ensures |Total(bufs)| == |bufs| * n
  {
    if bufs != [] {
      TotalLength(bufs[..|bufs| - 1], n);
      assert |bufs| * n == (|bufs| - 1) * n + n;
    }
  }

  /** No connection fails while the next buffer is received. */
  ghost predicate ReceivedSteadily(bufs: seq<seq<Packet>>, numElems: nat, s: int, size: nat,
                                   answers: (nat, nat) -> seq<int>)
    requires s > 0
  {
    forall t: nat :: t < s ==>
      SteadyFor(answers(|bufs|, t), size,
                MaxPackets(numElems, s, ReceiverEnd(bufs, s), (|Total(bufs)| + numElems) % s, t))
  }

  /** When the receiver stops although no connection failed, the packets left do not fill another buffer. */
  lemma StopsAtTheEnd(sent: seq<seq<Packet>>, received: seq<seq<Packet>>, numElems: nat, s: int, size: nat,
                      streams: nat -> seq<Packet>, answers: (nat, nat) -> seq<int>)
    requires Streams(s) && s <= numElems < UINT32 && Rounds(sent, s, UINT64) && Rounds(received, s, UINT32)
    requires forall t: nat :: t < s ==> streams(t) == Sent(sent, s, t)
    requires ReceivedSteadily(received, numElems, s, size, answers)
    requires Stops(received, numElems, s, size, streams, answers)
    ensures |Total(received)| + numElems > |Total(sent)|
  {
    var from := (t: nat) => Consumed(received, s, t);
    ReceiverEndIs(received, s);
    StreamsAreLanes(sent, received, s, streams, from);
    SomeoneStarves(received, numElems, s, size, streams, answers, from);
    AllEnoughIff(Total(sent), |Total(received)|, numElems, s, ReceiverEnd(received, s),
                 (|Total(received)| + numElems) % s, streams, from);
  }

  lemma SomeoneStarves(received: seq<seq<Packet>>, numElems: nat, s: int, size: nat, streams: nat -> seq<Packet>,
                       answers: (nat, nat) -> seq<int>, from: nat -> nat)
    requires s > 0 && (forall t: nat :: t < s ==> from(t) == Consumed(received, s, t))
    requires ReceivedSteadily(received, numElems, s, size, answers)
    requires Stops(received, numElems, s, size, streams, answers)
    ensures !AllEnough(numElems, s, ReceiverEnd(received, s), (|Total(received)| + numElems) % s, streams, from)
  {
    var start, end := ReceiverEnd(received, s), (|Total(received)| + numElems) % s;
    var t: nat :| t < s
      && !CanFinish(numElems, s, start, end, size, t, answers(|received|, t), streams(t), Consumed(received, s, t));
    assert !Enough(numElems, s, start, end, t, streams(t), from(t));
  }

  lemma WholeBuffers(m: nat, k: nat, n: nat)
    requires n > 0 && k * n <= m < k * n + n
    ensures m / n == k
  {
    RemainderUnique(m, n, k, m - k * n);
  }

  lemma AtLeastBuffers(m: nat, k: nat, n: nat)
    requires n > 0 && k * n <= m
    ensures k <= m / n
  {
    QuotientAtLeast(m, n, k);
  }

  /** What the receiver makes of a recording, complete: unless a connection fails, as many full buffers as the
      packets sent make, or as many as it has rounds for, and they are those packets in order. */
  lemma MergingFillsAll(sent: seq<seq<Packet>>, received: seq<seq<Packet>>, numElems: nat, s: int, size: nat,
                        rounds: nat, streams: nat -> seq<Packet>, answers: (nat, nat) -> seq<int>)
    requires Streams(s) && s <= numElems < UINT32 && Rounds(sent, s, UINT64) && Rounds(received, s, UINT32)
    requires forall t: nat :: t < s ==> streams(t) == Sent(sent, s, t)
    requires Received(received, s, streams) && forall i :: 0 <= i < |received| ==> |received[i]| == numElems
    requires |received| <= rounds && (|received| < rounds ==> Stops(received, numElems, s, size, streams, answers))
    requires |received| < rounds ==> ReceivedSteadily(received, numElems, s, size, answers)
    ensures Total(received) <= Total(sent)
    ensures |received| == if |Total(sent)| / numElems < rounds then |Total(sent)| / numElems else rounds
  {
    MergingUndoesDealing(sent, received, s, streams);
    TotalLength(received, numElems);
    if |received| < rounds {
      StopsAtTheEnd(sent, received, numElems, s, size, streams, answers);
      WholeBuffers(|Total(sent)|, |received|, numElems);
    } else {
      AtLeastBuffers(|Total(sent)|, rounds, numElems);
    }
  }
}
