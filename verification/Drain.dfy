/** A full buffer on its way to disk: written in chunks, and from the start again on another recorder when a
    recorder fails. */
module Drain {
  import opened Options

  const BLOCK_ALIGN: nat := 4096
  const EOF: int := -1
  const UINT64: nat := 0x1_0000_0000_0000_0000

  /** How much is written at once, and whether the recorder bypasses the page cache. */
  datatype Config = Config(limit: nat, directIo: bool)

  /** What is left to write, and where in the buffer it starts. */
  datatype State = State(diff: nat, offset: nat)

  /** One call of a recorder: which bytes of the buffer, and what it returned. */
  datatype Chunk = Chunk(from: nat, count: nat, ret: int)

  /** A recorder, by what its calls return: the number of the call and the bytes asked for. */
  type Writer = (nat, nat) -> int

  /** Never returns 0 and never more than asked; with direct I/O it writes everything or fails. */
  ghost predicate Progresses(cfg: Config, w: Writer) {
    forall i, count: nat {:trigger w(i, count)} :: count > 0 ==>
      && w(i, count) <= count && w(i, count) != 0
      && (cfg.directIo ==> w(i, count) == count || w(i, count) < 0)
  }

  function RoundUp(n: nat): (r: nat)
    ensures n <= r < n + BLOCK_ALIGN && r % BLOCK_ALIGN == 0
  {
    if n % BLOCK_ALIGN == 0 then n else n + (BLOCK_ALIGN - n % BLOCK_ALIGN)
  }

  /** The bytes handed to the recorder: a short rest is padded to a whole block for direct I/O. */
  function Count(cfg: Config, diff: nat): nat {
    if diff >= cfg.limit then cfg.limit
    else if cfg.directIo then RoundUp(diff)
    else diff
  }

  /** The buffer's own share of those bytes. */
  function Payload(cfg: Config, diff: nat): nat {
    if diff >= cfg.limit then cfg.limit else diff
  }

  /** After a call that returned `ret`; the counters are unsigned. */
  function After(cfg: Config, st: State, ret: int): State {
    var count, payload := Count(cfg, st.diff), Payload(cfg, st.diff);
    if ret == EOF then State(0, st.offset)
    else if ret <= 0 then st
    else if ret == count then State(st.diff - payload, st.offset + payload)
    else State((st.diff - ret) % UINT64, st.offset + ret)
  }

  /** The size is kept in an int while recorders are tried. */
  function ToInt32(x: nat): int {
    var low := x % 0x1_0000_0000;
    if low >= 0x8000_0000 then low - 0x1_0000_0000 else low
  }

  function ToUint64(x: int): nat {
    x % UINT64
  }

  datatype Result = Done | Failed

  /** One recorder's run over what is left. */
  datatype Attempt = Attempt(chunks: seq<Chunk>, end: State, result: Result)

  ghost function Run(cfg: Config, w: Writer, call: nat, st: State): Attempt
    requires cfg.limit > 0 && Progresses(cfg, w) && st.diff < UINT64
    decreases st.diff
  {
    if st.diff == 0 then Attempt([], st, Done) else
      var count := Count(cfg, st.diff);
      var ret := w(call, count);
      var chunk, st' := Chunk(st.offset, count, ret), After(cfg, st, ret);
      if ret < 0 && ret != EOF then Attempt([chunk], st', Failed) else
        var rest := Run(cfg, w, call + 1, st');
        Attempt([chunk] + rest.chunks, rest.end, rest.result)
  }

  ghost predicate Usable(cfg: Config, recers: seq<Option<Writer>>) {
    forall i :: 0 <= i < |recers| && recers[i].Some? ==> Progresses(cfg, recers[i].value)
  }

  /** The chunks of the first recorder that takes what there is to write: `now` bytes on the first try, the
      size restored from the int after a failure. */
  ghost function Accepted(cfg: Config, size: nat, now: nat, recers: seq<Option<Writer>>): Option<seq<Chunk>>
    requires cfg.limit > 0 && Usable(cfg, recers) && now < UINT64
    decreases |recers|
  {
    if recers == [] then None else
      var restored := ToUint64(ToInt32(size));
      if recers[0].None? then Accepted(cfg, size, restored, recers[1..]) else
        var a := Run(cfg, recers[0].value, 0, State(now, 0));
        if a.result == Done then Some(a.chunks) else Accepted(cfg, size, restored, recers[1..])
  }

  class Buffer {
    const cfg: Config
    var diff: nat
    var offset: nat
    var calls: nat
    ghost var log: seq<Chunk>

    ghost function View(): State
      reads this
    {
      State(diff, offset)
    }

    constructor (cfg: Config, size: nat)
      ensures this.cfg == cfg && View() == State(size, 0) && log == []
    {
      this.cfg := cfg;
      diff, offset, calls, log := size, 0, 0, [];
    }

    method Write(w: Writer, count: nat) returns (ret: int)
      modifies this`calls, this`log
      ensures ret == w(old(calls), count) && calls == old(calls) + 1
      ensures log == old(log) + [Chunk(offset, count, ret)]
    {
      ret := w(calls, count);
      calls, log := calls + 1, log + [Chunk(offset, count, ret)];
    }

    method EndTransaction(w: Writer) returns (err: int)
      requires cfg.directIo && 0 < diff < cfg.limit
      modifies this
      ensures var count := Count(cfg, old(diff));
        var ret := w(old(calls), count);
        && calls == old(calls) + 1 && log == old(log) + [Chunk(old(offset), count, ret)]
        && View() == After(cfg, old(View()), ret) && err == if ret < 0 && ret != EOF then -1 else 0
    {
      var count, origcount := diff, diff;
      var wroteExtra := count % BLOCK_ALIGN;
      if wroteExtra != 0 {
        wroteExtra := BLOCK_ALIGN - wroteExtra;
        count := count + wroteExtra;
      }
      var ret := Write(w, count);
      if ret == EOF {
        diff := 0;
      } else if ret < 0 {
        return -1;
      } else if ret == 0 {
      } else if ret != count {
        diff := (diff - ret) % UINT64;
        offset := offset + ret;
      } else {
        diff := diff - origcount;
        offset := offset + origcount;
      }
      err := 0;
    }

    /** Writes one chunk. */
    method WriteBytes(w: Writer) returns (err: int)
      requires diff > 0
      modifies this
      ensures var count := Count(cfg, old(diff));
        var ret := w(old(calls), count);
        && calls == old(calls) + 1 && log == old(log) + [Chunk(old(offset), count, ret)]
        && View() == After(cfg, old(View()), ret) && err == if ret < 0 && ret != EOF then -1 else 0
    {
      var limit, count := cfg.limit, diff;
      if count > limit {
        count := limit;
      }
      if limit != count && cfg.directIo {
        err := EndTransaction(w);
        return;
      }
      var ret := Write(w, count);
      if ret == EOF {
        diff := 0;
      } else if ret < 0 {
        return -1;
      } else if ret == 0 {
      } else if ret != count {
        diff := (diff - ret) % UINT64;
        offset := offset + ret;
      } else {
        diff := diff - count;
        offset := offset + count;
      }
      err := 0;
    }

    /** Writes one chunk of the try `all`, of which `written` is done. */
    method NextChunk(w: Writer, ghost all: Attempt, ghost written: seq<Chunk>) returns (err: int, ghost chunk: Chunk)
      requires cfg.limit > 0 && Progresses(cfg, w) && 0 < diff < UINT64
      requires Continues(all, written, Run(cfg, w, calls, View()))
      modifies this
      ensures log == old(log) + [chunk] && (err == 0 || err == -1)
      ensures err == 0 ==> diff < old(diff) && Continues(all, written + [chunk], Run(cfg, w, calls, View()))
      ensures err != 0 ==> Continues(all, written + [chunk], Attempt([], View(), Failed))
    {
      chunk := Chunk(offset, Count(cfg, diff), w(calls, Count(cfg, diff)));
      RunContinues(cfg, w, calls, View(), all, written);
      err := WriteBytes(w);
    }

    /** Writes chunks until nothing is left or the recorder fails. */
    method SyncLoop(w: Writer) returns (err: int)
      requires cfg.limit > 0 && Progresses(cfg, w) && diff < UINT64
      modifies this
      ensures var a := Run(cfg, w, old(calls), old(View()));
        && log == old(log) + a.chunks && View() == a.end && err == if a.result == Done then 0 else -1
    {
      ghost var all, start := Run(cfg, w, calls, View()), log;
      ghost var written: seq<Chunk> := [];
      ghost var chunk;
      while diff > 0
        invariant log == start + written && diff < UINT64
        invariant Continues(all, written, Run(cfg, w, calls, View()))
        decreases diff
      {
        err, chunk := NextChunk(w, all, written);
        written := written + [chunk];
        if err != 0 {
          return -1;
        }
      }
      err := 0;
    }

    /** One try with one recorder, or with none when acquiring it failed. */
    method WriteBuffer(recer: Option<Writer>) returns (ret: int)
      requires cfg.limit > 0 && diff < UINT64 && (recer.Some? ==> Progresses(cfg, recer.value))
      modifies this
      ensures recer.None? ==> ret != 0 && log == old(log)
      ensures recer.Some? ==> var a := Run(cfg, recer.value, 0, old(View()));
        && log == old(log) + a.chunks && View() == a.end && (ret == 0 <==> a.result == Done)
    {
      if recer.None? {
        return -1;
      }
      calls := 0;
      ret := SyncLoop(recer.value);
    }

    /** Tries one recorder after the other until one has taken the whole buffer; gives up when there are no
        more of them. */
    method WriteLoop(recers: seq<Option<Writer>>) returns (done: bool, ghost accepted: seq<Chunk>)
      requires cfg.limit > 0 && offset == 0 && diff < UINT64 && Usable(cfg, recers)
      modifies this
      ensures done ==> |accepted| <= |log| && log[|log| - |accepted|..] == accepted
      ensures Accepted(cfg, old(diff), old(diff), recers) == if done then Some(accepted) else None
    {
      ghost var first := diff;
      var savedif := ToInt32(diff);
      done, accepted := false, [];
      var i := 0;
      while i < |recers| && !done
        invariant 0 <= i <= |recers| && savedif == ToInt32(first)
        invariant !done ==> offset == 0 && diff < UINT64
        invariant done ==> |accepted| <= |log| && log[|log| - |accepted|..] == accepted
        invariant Accepted(cfg, first, first, recers)
               == if done then Some(accepted) else Accepted(cfg, first, diff, recers[i..])
      {
        ghost var now := diff;
        assert recers[i..][1..] == recers[i + 1..];
        var ret := WriteBuffer(recers[i]);
        if ret != 0 {
          diff, offset := ToUint64(savedif), 0;
        } else {
          done := true;
          accepted := Run(cfg, recers[i].value, 0, State(now, 0)).chunks;
        }
        i := i + 1;
      }
    }
  }

  ghost predicate Continues(all: Attempt, written: seq<Chunk>, rest: Attempt) {
    all.chunks == written + rest.chunks && all.end == rest.end && all.result == rest.result
  }

  /** The first chunk of a try, and the rest unless it failed. */
  lemma RunUnfolds(cfg: Config, w: Writer, call: nat, st: State)
    requires cfg.limit > 0 && Progresses(cfg, w) && 0 < st.diff < UINT64
    ensures var ret := w(call, Count(cfg, st.diff));
      var chunk, st' := Chunk(st.offset, Count(cfg, st.diff), ret), After(cfg, st, ret);
      if ret < 0 && ret != EOF then Run(cfg, w, call, st) == Attempt([chunk], st', Failed)
      else st'.diff < st.diff && Run(cfg, w, call, st) == Before(chunk, Run(cfg, w, call + 1, st'))
  {
  }

  /** A try that starts with this chunk. */
  function Before(chunk: Chunk, rest: Attempt): Attempt {
    Attempt([chunk] + rest.chunks, rest.end, rest.result)
  }

  lemma ContinuesMore(all: Attempt, written: seq<Chunk>, chunk: Chunk, rest: Attempt)
    requires Continues(all, written, Before(chunk, rest))
    ensures Continues(all, written + [chunk], rest)
  {
  }

  lemma RunContinues(cfg: Config, w: Writer, call: nat, st: State, all: Attempt, written: seq<Chunk>)
    requires cfg.limit > 0 && Progresses(cfg, w) && 0 < st.diff < UINT64
    requires Continues(all, written, Run(cfg, w, call, st))
    ensures var count := Count(cfg, st.diff);
      var ret := w(call, count);
      var written', st' := written + [Chunk(st.offset, count, ret)], After(cfg, st, ret);
      && (st'.diff < st.diff || (ret < 0 && ret != EOF))
      && if ret < 0 && ret != EOF then Continues(all, written', Attempt([], st', Failed))
         else Continues(all, written', Run(cfg, w, call + 1, st'))
  {
    var ret := w(call, Count(cfg, st.diff));
    var chunk, st' := Chunk(st.offset, Count(cfg, st.diff), ret), After(cfg, st, ret);
    RunUnfolds(cfg, w, call, st);
    if ret < 0 && ret != EOF {
      ContinuesMore(all, written, chunk, Attempt([], st', Failed));
    } else {
      ContinuesMore(all, written, chunk, Run(cfg, w, call + 1, st'));
    }
  }

  // ---------- What reaches the disk ----------

  /** What was written goes on without a gap from `from` to `to`, each chunk starting where the last one
      ended. */
  predicate Contiguous(chunks: seq<Chunk>, from: nat, to: nat) {
    if chunks == [] then from == to else
      && chunks[0].from == from && 0 < chunks[0].ret <= chunks[0].count
      && Contiguous(chunks[1..], from + chunks[0].ret, to)
  }

  predicate SawEof(chunks: seq<Chunk>) {
    exists i :: 0 <= i < |chunks| && chunks[i].ret == EOF
  }

  /** With direct I/O the limit is a whole number of blocks. */
  predicate Aligned(cfg: Config) {
    cfg.limit > 0 && (cfg.directIo ==> cfg.limit % BLOCK_ALIGN == 0)
  }

  function Padded(cfg: Config, size: nat): nat {
    if cfg.directIo then RoundUp(size) else size
  }

  lemma PaddedLess(cfg: Config, size: nat)
    requires Aligned(cfg)
    ensures size >= cfg.limit ==> Padded(cfg, size) == cfg.limit + Padded(cfg, size - cfg.limit)
    ensures size < cfg.limit ==> Padded(cfg, size) == Count(cfg, size)
  {
    if size >= cfg.limit && cfg.directIo {
      var b, r := (size - cfg.limit) / BLOCK_ALIGN, (size - cfg.limit) % BLOCK_ALIGN;
      assert size == BLOCK_ALIGN * (cfg.limit / BLOCK_ALIGN + b) + r;
    }
  }

  /** What the calls really wrote. */
  function Written(chunks: seq<Chunk>): nat {
    if chunks == [] then 0 else (if chunks[0].ret > 0 then chunks[0].ret else 0) + Written(chunks[1..])
  }

  /** What a call may return that wrote something. */
  predicate Wrote(cfg: Config, diff: nat, ret: int) {
    0 < ret <= Count(cfg, diff) && (cfg.directIo ==> ret == Count(cfg, diff))
  }

  /** After such a call the rest is less by what was written, and starts where it ended unless nothing is left. */
  lemma RestAfter(cfg: Config, st: State, ret: int)
    requires Aligned(cfg) && 0 < st.diff < UINT64 && Wrote(cfg, st.diff, ret)
    ensures var st' := After(cfg, st, ret);
      && st'.diff < st.diff && st'.offset + st'.diff == st.offset + st.diff
      && Padded(cfg, st.diff) == ret + Padded(cfg, st'.diff)
      && (st'.diff > 0 ==> st'.offset == st.offset + ret)
  {
    PaddedLess(cfg, st.diff);
  }

  /** The first chunk of a try and the try that is left. */
  lemma FirstChunk(cfg: Config, w: Writer, call: nat, st: State) returns (ret: int, st': State)
    requires Aligned(cfg) && Progresses(cfg, w) && 0 < st.diff < UINT64
    ensures ret < 0 || Wrote(cfg, st.diff, ret)
    ensures ret == w(call, Count(cfg, st.diff)) && st' == After(cfg, st, ret)
    ensures ret < 0 && ret != EOF ==>
      Run(cfg, w, call, st) == Attempt([Chunk(st.offset, Count(cfg, st.diff), ret)], st', Failed)
    ensures ret == EOF || ret >= 0 ==> st'.diff < st.diff && var rest := Run(cfg, w, call + 1, st');
      Run(cfg, w, call, st)
        == Attempt([Chunk(st.offset, Count(cfg, st.diff), ret)] + rest.chunks, rest.end, rest.result)
  {
    CountFits(cfg, st.diff);
    ret := w(call, Count(cfg, st.diff));
    st' := After(cfg, st, ret);
    if ret > 0 {
      RestAfter(cfg, st, ret);
    }
  }

  lemma OneMoreChunk(chunk: Chunk, rest: seq<Chunk>, all: seq<Chunk>)
    requires all == [chunk] + rest
    ensures all[0] == chunk && all[1..] == rest
    ensures SawEof(all) <==> chunk.ret == EOF || SawEof(rest)
    ensures Written(all) == (if chunk.ret > 0 then chunk.ret else 0) + Written(rest)
  {
    forall i | 0 <= i < |rest|
      ensures all[i + 1] == rest[i]
    {
    }
    if SawEof(all) && chunk.ret != EOF {
      var i :| 0 <= i < |all| && all[i].ret == EOF;
      assert rest[i - 1].ret == EOF;
    }
    if SawEof(rest) {
      var i :| 0 <= i < |rest| && rest[i].ret == EOF;
      assert all[i + 1].ret == EOF;
    }
  }

  /** The calls of the try have written what there was to write, in order. */
  predicate CoversAll(cfg: Config, st: State, a: Attempt) {
    Contiguous(a.chunks, st.offset, st.offset + Padded(cfg, st.diff)) && a.end == State(0, st.offset + st.diff)
  }

  lemma CoversStep(cfg: Config, st: State, ret: int, chunk: Chunk, rest: Attempt)
    requires Aligned(cfg) && 0 < st.diff < UINT64 && Wrote(cfg, st.diff, ret)
    requires chunk == Chunk(st.offset, Count(cfg, st.diff), ret)
    requires var st' := After(cfg, st, ret);
      if st'.diff == 0 then rest == Attempt([], st', Done) else CoversAll(cfg, st', rest)
    ensures CoversAll(cfg, st, Before(chunk, rest))
  {
    RestAfter(cfg, st, ret);
    OneMoreContiguous(chunk, rest.chunks, Before(chunk, rest).chunks, st.offset + ret,
                      st.offset + Padded(cfg, st.diff));
  }

  lemma EndOfFileIsSeen(chunk: Chunk, rest: Attempt)
    requires !SawEof(Before(chunk, rest).chunks)
    ensures chunk.ret != EOF && !SawEof(rest.chunks)
  {
    OneMoreChunk(chunk, rest.chunks, Before(chunk, rest).chunks);
  }

  /** A try that ends well without an end of file has written every byte, in order, and with direct I/O
      whole blocks up to the next block boundary. */
  lemma {:induction false} RunCovers(cfg: Config, w: Writer, call: nat, st: State)
    requires Aligned(cfg) && Progresses(cfg, w) && st.diff < UINT64
    requires var a := Run(cfg, w, call, st); a.result == Done && !SawEof(a.chunks)
    ensures CoversAll(cfg, st, Run(cfg, w, call, st))
    decreases st.diff
  {
    if st.diff > 0 {
      var ret := w(call, Count(cfg, st.diff));
      var chunk, st' := Chunk(st.offset, Count(cfg, st.diff), ret), After(cfg, st, ret);
      RunUnfolds(cfg, w, call, st);
      CountFits(cfg, st.diff);
      EndOfFileIsSeen(chunk, Run(cfg, w, call + 1, st'));
      RunCovers(cfg, w, call + 1, st');
      CoversStep(cfg, st, ret, chunk, Run(cfg, w, call + 1, st'));
    }
  }

  lemma OneMoreContiguous(chunk: Chunk, rest: seq<Chunk>, all: seq<Chunk>, next: nat, to: nat)
    requires all == [chunk] + rest && 0 < chunk.ret <= chunk.count && next == chunk.from + chunk.ret
    requires Contiguous(rest, next, to)
    ensures Contiguous(all, chunk.from, to)
  {
    assert all[1..] == rest;
  }

  /** How much is asked for while `left` bytes are left: the limit if there is as much, otherwise all of it, and for
      direct I/O up to the next block boundary. */
  predicate AsksFor(cfg: Config, left: int, count: nat) {
    if left >= cfg.limit then count == cfg.limit
    else if cfg.directIo then count % BLOCK_ALIGN == 0 && left <= count < left + BLOCK_ALIGN
    else count == left
  }

  lemma CountAsks(cfg: Config, diff: nat)
    ensures AsksFor(cfg, diff, Count(cfg, diff))
  {
  }

  /** Every call is for as much as there is from its first byte up to `end`. */
  ghost predicate AskForMost(cfg: Config, chunks: seq<Chunk>, end: nat) {
    forall i :: 0 <= i < |chunks| ==> chunks[i].from < end && AsksFor(cfg, end - chunks[i].from, chunks[i].count)
  }

  lemma OneMoreAsks(cfg: Config, chunk: Chunk, rest: seq<Chunk>, end: nat)
    requires chunk.from < end && AsksFor(cfg, end - chunk.from, chunk.count) && AskForMost(cfg, rest, end)
    ensures AskForMost(cfg, [chunk] + rest, end)
  {
  }

  lemma {:induction false} RunAsksForMost(cfg: Config, w: Writer, call: nat, st: State)
    requires Aligned(cfg) && Progresses(cfg, w) && st.diff < UINT64
    ensures AskForMost(cfg, Run(cfg, w, call, st).chunks, st.offset + st.diff)
    decreases st.diff
  {
    if st.diff > 0 {
      var ret, st' := FirstChunk(cfg, w, call, st);
      var chunk := Chunk(st.offset, Count(cfg, st.diff), ret);
      CountAsks(cfg, st.diff);
      OneMoreAsks(cfg, chunk, [], st.offset + st.diff);
      if ret > 0 {
        RestAfter(cfg, st, ret);
        RunAsksForMost(cfg, w, call + 1, st');
        OneMoreAsks(cfg, chunk, Run(cfg, w, call + 1, st').chunks, st.offset + st.diff);
      }
    }
  }

  /** Call i of a try is call number `call` + i of the recorder. The first is at the first byte, and each other one
      goes on where the one before, which wrote something, ended. */
  lemma {:induction false} RunGoesOn(cfg: Config, w: Writer, call: nat, st: State, i: nat)
    requires Aligned(cfg) && Progresses(cfg, w) && st.diff < UINT64 && i < |Run(cfg, w, call, st).chunks|
    ensures Run(cfg, w, call, st).chunks[i].ret == w(call + i, Run(cfg, w, call, st).chunks[i].count)
    ensures var chunks := Run(cfg, w, call, st).chunks;
      if i == 0 then chunks[0].from == st.offset
      else chunks[i - 1].ret > 0 && chunks[i].from == chunks[i - 1].from + chunks[i - 1].ret
    decreases st.diff
  {
    var ret, st' := FirstChunk(cfg, w, call, st);
    if i > 0 {
      if ret > 0 {
        RestAfter(cfg, st, ret);
      }
      RunGoesOn(cfg, w, call + 1, st', i - 1);
    }
  }

  /** A try ends when nothing is left, at the end of a file, or with a call that failed: only then it has failed,
      and what that call was for is left. */
  lemma {:induction false} RunEnds(cfg: Config, w: Writer, call: nat, st: State)
    requires Aligned(cfg) && Progresses(cfg, w) && st.diff < UINT64
    ensures var a := Run(cfg, w, call, st);
      && (a.chunks == [] <==> st.diff == 0)
      && (a.result == Done ==> a.end.diff == 0)
      && (st.diff > 0 ==> var last := a.chunks[|a.chunks| - 1];
           && (a.result == Failed <==> last.ret < 0 && last.ret != EOF)
           && (a.result == Failed ==> a.end.offset == last.from && a.end.offset + a.end.diff == st.offset + st.diff)
           && (last.ret > 0 ==> last.from + last.ret >= st.offset + st.diff))
    decreases st.diff
  {
    if st.diff > 0 {
      var ret, st' := FirstChunk(cfg, w, call, st);
      if ret >= 0 {
        RestAfter(cfg, st, ret);
        RunEnds(cfg, w, call + 1, st');
      }
    }
  }

  /** Every call, also of a try that fails, stays inside the padded buffer. */
  lemma {:induction false} RunStaysInside(cfg: Config, w: Writer, call: nat, st: State, i: nat)
    requires Aligned(cfg) && Progresses(cfg, w) && st.diff < UINT64 && i < |Run(cfg, w, call, st).chunks|
    ensures var c := Run(cfg, w, call, st).chunks[i];
      0 < c.count <= cfg.limit && st.offset <= c.from && c.from + c.count <= st.offset + Padded(cfg, st.diff)
    decreases st.diff
  {
    var ret, st' := FirstChunk(cfg, w, call, st);
    if i == 0 {
      CountFits(cfg, st.diff);
      PaddedLess(cfg, st.diff);
    } else {
      if ret > 0 {
        RestAfter(cfg, st, ret);
      }
      RunStaysInside(cfg, w, call + 1, st', i - 1);
    }
  }

  /** So with direct I/O no call reads past a buffer allocated in whole blocks, nor otherwise past its data. */
  lemma RunStaysInMemory(cfg: Config, w: Writer, size: nat, room: nat, i: nat)
    requires Aligned(cfg) && Progresses(cfg, w) && size < UINT64 && i < |Run(cfg, w, 0, State(size, 0)).chunks|
    requires size <= room && (cfg.directIo ==> room % BLOCK_ALIGN == 0)
    ensures var c := Run(cfg, w, 0, State(size, 0)).chunks[i];
      c.from + c.count <= room
  {
    RunStaysInside(cfg, w, 0, State(size, 0), i);
    PaddedFits(cfg, size, room);
  }

  lemma PaddedFits(cfg: Config, size: nat, room: nat)
    requires size <= room && (cfg.directIo ==> room % BLOCK_ALIGN == 0)
    ensures Padded(cfg, size) <= room
  {
  }

  lemma CountFits(cfg: Config, diff: nat)
    requires Aligned(cfg) && diff > 0
    ensures 0 < Count(cfg, diff) <= cfg.limit
    ensures cfg.directIo ==> Count(cfg, diff) % BLOCK_ALIGN == 0
  {
    if diff < cfg.limit && cfg.directIo {
      var q := cfg.limit / BLOCK_ALIGN;
      assert cfg.limit == BLOCK_ALIGN * q;
    }
  }

  lemma BlocksAdd(a: nat, b: nat)
    requires a % BLOCK_ALIGN == 0 && b % BLOCK_ALIGN == 0
    ensures (a + b) % BLOCK_ALIGN == 0
  {
  }

  /** With direct I/O every call starts and ends on a block boundary. */
  lemma {:induction false} RunIsInBlocks(cfg: Config, w: Writer, call: nat, st: State, i: nat)
    requires Aligned(cfg) && cfg.directIo && Progresses(cfg, w)
    requires st.diff < UINT64 && i < |Run(cfg, w, call, st).chunks|
    requires st.offset % BLOCK_ALIGN == 0
    ensures var c := Run(cfg, w, call, st).chunks[i];
      c.from % BLOCK_ALIGN == 0 && c.count % BLOCK_ALIGN == 0
    decreases st.diff
  {
    var ret, st' := FirstChunk(cfg, w, call, st);
    CountFits(cfg, st.diff);
    if i > 0 {
      if ret > 0 {
        RestAfter(cfg, st, ret);
        BlocksAdd(st.offset, ret);
      }
      RunIsInBlocks(cfg, w, call + 1, st', i - 1);
    }
  }

  /** -1 is both the end of file and the value recorders return when a write fails, and it ends a try as
      done. So a try that ends well has written everything if and only if no call returned -1. */
  lemma {:induction false} DoneIsCompleteIff(cfg: Config, w: Writer, call: nat, st: State)
    requires Aligned(cfg) && Progresses(cfg, w) && st.diff < UINT64 && Run(cfg, w, call, st).result == Done
    ensures var a := Run(cfg, w, call, st);
      && Written(a.chunks) <= Padded(cfg, st.diff)
      && (Written(a.chunks) == Padded(cfg, st.diff) <==> !SawEof(a.chunks))
    decreases st.diff
  {
    if st.diff > 0 {
      var ret, st' := FirstChunk(cfg, w, call, st);
      var rest := Run(cfg, w, call + 1, st');
      OneMoreChunk(Chunk(st.offset, Count(cfg, st.diff), ret), rest.chunks, Run(cfg, w, call, st).chunks);
      if ret == EOF {
        PaddedLess(cfg, st.diff);
      } else {
        RestAfter(cfg, st, ret);
        DoneIsCompleteIff(cfg, w, call + 1, st');
      }
    }
  }

  /** A recorder that takes only part of a chunk leaves the right rest exactly when it did not reach into the
      padding: past the end of the data the unsigned counter wraps. */
  lemma ShortWriteIff(cfg: Config, st: State, ret: nat)
    requires cfg.limit > 0 && st.diff < UINT64 && 0 < ret < Count(cfg, st.diff) && ret < UINT64
    ensures After(cfg, st, ret).offset == st.offset + ret
    ensures After(cfg, st, ret).diff + ret == st.diff <==> ret <= st.diff
  {
  }

  /** A call that wrote nothing leaves everything to be written, unless it met the end of a file: then nothing is
      left. */
  lemma NothingWritten(cfg: Config, st: State, ret: int)
    requires ret <= 0
    ensures ret != EOF ==> After(cfg, st, ret) == st
    ensures ret == EOF ==> After(cfg, st, ret).diff == 0
  {
  }

  // ---------- Retrying ----------

  /** The int gives the size back exactly when it is below 2^31. */
  lemma RestoredIff(size: nat)
    requires size < 0x8000_0000_0000_0000
    ensures ToUint64(ToInt32(size)) == size <==> size < 0x8000_0000
  {
  }

  /** The first recorder in the list takes the buffer. */
  ghost predicate FirstTakes(cfg: Config, now: nat, recers: seq<Option<Writer>>)
    requires cfg.limit > 0 && Usable(cfg, recers) && now < UINT64 && recers != []
  {
    recers[0].Some? && Run(cfg, recers[0].value, 0, State(now, 0)).result == Done
  }

  /** What is accepted is one try of one recorder, from byte 0 on: with the size there is if it is the first, and
      with the size restored from the int otherwise. */
  lemma {:induction false} AcceptedIs(cfg: Config, size: nat, now: nat, recers: seq<Option<Writer>>)
    returns (w: Writer, given: nat)
    requires cfg.limit > 0 && Usable(cfg, recers) && now < UINT64 && Accepted(cfg, size, now, recers).Some?
    ensures Progresses(cfg, w) && given < UINT64
    ensures given == if FirstTakes(cfg, now, recers) then now else ToUint64(ToInt32(size))
    ensures var a := Run(cfg, w, 0, State(given, 0));
      a.result == Done && Accepted(cfg, size, now, recers) == Some(a.chunks)
    decreases |recers|
  {
    if FirstTakes(cfg, now, recers) {
      w, given := recers[0].value, now;
    } else {
      w, given := AcceptedIs(cfg, size, ToUint64(ToInt32(size)), recers[1..]);
    }
  }

  lemma {:induction false} OneEnd(chunks: seq<Chunk>, from: nat, a: nat, b: nat)
    requires Contiguous(chunks, from, a) && Contiguous(chunks, from, b)
    ensures a == b
  {
    if chunks != [] {
      OneEnd(chunks[1..], from + chunks[0].ret, a, b);
    }
  }

  /** The int is off by a multiple of 2^32, so by more than padding can hide. */
  lemma RestoredPadsTo(cfg: Config, size: nat)
    requires size < 0x8000_0000_0000_0000
    ensures Padded(cfg, ToUint64(ToInt32(size))) == Padded(cfg, size) <==> size < 0x8000_0000
  {
    var n := ToUint64(ToInt32(size));
    RestoredIff(size);
    RestoredIsFar(size);
  }

  lemma RestoredIsFar(size: nat)
    requires 0 <= size < 0x8000_0000_0000_0000
    ensures var n := ToUint64(ToInt32(size));
      n == size || n <= size - 0x1_0000_0000 || n >= size + 0x1_0000_0000
  {
    var q, low := size / 0x1_0000_0000, size % 0x1_0000_0000;
    assert size == 0x1_0000_0000 * q + low && q < 0x8000_0000;
  }

  /** Whatever recorders could not be acquired or failed before, for every list of recorders and every size: an
      accepted try in which no call returned -1 has written the whole buffer from byte 0 in order if and only
      if the size is below 2^31 or the first recorder took it. Otherwise it has written as many bytes as the int
      gives back. */
  lemma DrainCoversIff(cfg: Config, size: nat, recers: seq<Option<Writer>>)
    requires Aligned(cfg) && Usable(cfg, recers) && size < 0x8000_0000_0000_0000
    requires Accepted(cfg, size, size, recers).Some? && !SawEof(Accepted(cfg, size, size, recers).value)
    ensures Contiguous(Accepted(cfg, size, size, recers).value, 0, Padded(cfg, size))
       <==> size < 0x8000_0000 || FirstTakes(cfg, size, recers)
    ensures !FirstTakes(cfg, size, recers) ==>
      Contiguous(Accepted(cfg, size, size, recers).value, 0, Padded(cfg, ToUint64(ToInt32(size))))
  {
    var w, given := AcceptedIs(cfg, size, size, recers);
    var chunks := Run(cfg, w, 0, State(given, 0)).chunks;
    RunCovers(cfg, w, 0, State(given, 0));
    RestoredPadsTo(cfg, size);
    if Contiguous(chunks, 0, Padded(cfg, size)) {
      OneEnd(chunks, 0, Padded(cfg, given), Padded(cfg, size));
    }
  }

  /** And it has written everything if and only if no call returned -1, when the size it was given is right. */
  lemma DrainCovers(cfg: Config, size: nat, recers: seq<Option<Writer>>)
    requires Aligned(cfg) && Usable(cfg, recers) && size < 0x8000_0000_0000_0000
    requires Accepted(cfg, size, size, recers).Some? && (size < 0x8000_0000 || FirstTakes(cfg, size, recers))
    ensures var chunks := Accepted(cfg, size, size, recers).value;
      && (Written(chunks) == Padded(cfg, size) <==> !SawEof(chunks))
      && (!SawEof(chunks) ==> Contiguous(chunks, 0, Padded(cfg, size)))
  {
    var w, given := AcceptedIs(cfg, size, size, recers);
    RestoredIff(size);
    DoneIsCompleteIff(cfg, w, 0, State(given, 0));
    if !SawEof(Run(cfg, w, 0, State(given, 0)).chunks) {
      RunCovers(cfg, w, 0, State(given, 0));
    }
  }

  /** A recorder as they all are: the only negative value its calls return is -1. */
  ghost predicate FailsAsEof(w: Writer) {
    forall i, count: nat {:trigger w(i, count)} :: w(i, count) >= EOF
  }

  /** Such a recorder is never replaced: a failing call ends the try as done. */
  lemma {:induction false} NeverFails(cfg: Config, w: Writer, call: nat, st: State)
    requires cfg.limit > 0 && Progresses(cfg, w) && st.diff < UINT64 && FailsAsEof(w)
    ensures Run(cfg, w, call, st).result == Done
    decreases st.diff
  {
    if st.diff > 0 {
      var ret := w(call, Count(cfg, st.diff));
      NeverFails(cfg, w, call + 1, After(cfg, st, ret));
    }
  }

  /** The first recorder that can be acquired. */
  function FirstAcquired(recers: seq<Option<Writer>>): (k: nat)
    ensures k <= |recers| && (k < |recers| ==> recers[k].Some?)
    ensures forall j :: 0 <= j < k ==> recers[j].None?
  {
    if recers == [] || recers[0].Some? then 0 else FirstAcquired(recers[1..]) + 1
  }

  /** So with the recorders there are only an acquisition that fails is retried: the buffer goes to the first
      recorder acquired, whatever its calls return, and to none if there is none. */
  lemma {:induction false} OnlyAcquiringIsRetried(cfg: Config, size: nat, now: nat, recers: seq<Option<Writer>>)
    requires cfg.limit > 0 && Usable(cfg, recers) && now < UINT64
    requires forall k :: 0 <= k < |recers| && recers[k].Some? ==> FailsAsEof(recers[k].value)
    ensures var k := FirstAcquired(recers);
      Accepted(cfg, size, now, recers)
      == if k == |recers| then None
         else Some(Run(cfg, recers[k].value, 0, State(if k == 0 then now else ToUint64(ToInt32(size)), 0)).chunks)
    decreases |recers|
  {
    if recers != [] {
      if recers[0].Some? {
        NeverFails(cfg, recers[0].value, 0, State(now, 0));
      } else {
        OnlyAcquiringIsRetried(cfg, size, ToUint64(ToInt32(size)), recers[1..]);
      }
    }
  }
}
