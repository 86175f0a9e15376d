/** The packet count in the file index, by which the hole filler decides how far it goes.

    The count is raised by a whole file when a file that was passed is left, and by the receive position
    at the end of reception; it is not raised when a packet that runs ahead opens the next file. */
module FileIndex {
  import opened Headers
  import opened Options
  import opened Refinement
  import opened Resequencer
  import opened Window
  import opened WindowProofs

  // ---------- How files are left ----------

  /** How many files were left because their last number had passed. */
  function FilesPassed(n: nat, arrivals: seq<Arrival>): nat
    requires n > 0
  {
    if arrivals == [] then 0 else
      var init := arrivals[..|arrivals| - 1];
      var w := Run(n, init);
      FilesPassed(n, init) + if !Aborted(w, n) && IsPassed(w, n) then 1 else 0
  }

  /** The packet opens the file after the current one. */
  predicate RunsAhead(w: Win, n: nat, a: Arrival)
    requires n > 0
  {
    w.first.Some? && a.num != w.last && FileOf(w.first.value, n, a.num) == w.id + 1
  }

  /** How many files were opened by a packet that ran ahead. */
  function FilesJumped(n: nat, arrivals: seq<Arrival>): nat
    requires n > 0
  {
    if arrivals == [] then 0 else
      var init, a := arrivals[..|arrivals| - 1], arrivals[|arrivals| - 1];
      var w := Run(n, init);
      FilesJumped(n, init) + if !Aborted(w, n) && RunsAhead(Switch(w, n), n, a) then 1 else 0
  }

  function PassedAtStop(n: nat, arrivals: seq<Arrival>, waiting: bool): nat
    requires n > 0
  {
    FilesPassed(n, arrivals) + if waiting && IsPassed(Run(n, arrivals), n) then 1 else 0
  }

  lemma StepOpens(w: Win, n: nat, a: Arrival)
    requires n > 0
    ensures Step(w, n, a).id
         == w.id + (if IsPassed(w, n) then 1 else 0) + (if RunsAhead(Switch(w, n), n, a) then 1 else 0)
  {
  }

  /** Every file but the first was opened in one of the two ways. */
  lemma {:induction false} FilesAreOpened(n: nat, arrivals: seq<Arrival>)
    requires n > 0
    ensures Run(n, arrivals).id == FilesPassed(n, arrivals) + FilesJumped(n, arrivals)
  {
    if arrivals != [] {
      var init, a := arrivals[..|arrivals| - 1], arrivals[|arrivals| - 1];
      FilesAreOpened(n, init);
      StepOpens(Run(n, init), n, a);
    }
  }

  lemma StoppedIsOpened(n: nat, arrivals: seq<Arrival>, waiting: bool)
    requires n > 0
    ensures Stopped(n, arrivals, waiting).id == PassedAtStop(n, arrivals, waiting) + FilesJumped(n, arrivals)
  {
    FilesAreOpened(n, arrivals);
  }

  lemma {:induction false} FilesOnlyGrow(n: nat, arrivals: seq<Arrival>, t: nat)
    requires n > 0 && t <= |arrivals|
    ensures FilesPassed(n, arrivals[..t]) <= FilesPassed(n, arrivals)
    ensures FilesJumped(n, arrivals[..t]) <= FilesJumped(n, arrivals)
  {
    if t == |arrivals| {
      assert arrivals[..t] == arrivals;
    } else {
      var init := arrivals[..|arrivals| - 1];
      FilesOnlyGrow(n, init, t);
      assert init[..t] == arrivals[..t];
    }
  }

  // ---------- What the index counts ----------

  /** The packets of m whole files. */
  function Whole(n: nat, m: nat): nat {
    if m == 0 then 0 else Whole(n, m - 1) + n
  }

  lemma {:induction false} WholeIs(n: nat, m: nat)
    ensures Whole(n, m) == n * m
  {
    if m > 0 {
      WholeIs(n, m - 1);
      assert n * m == n * (m - 1) + n;
    }
  }

  lemma {:induction false} WholeGrows(n: nat, m: nat, k: nat)
    requires m < k
    ensures Whole(n, m) + n <= Whole(n, k)
  {
    if m < k - 1 {
      WholeGrows(n, m, k - 1);
    }
  }

  /** The receive position, as the window has it: the slot behind the newest packet. */
  function Position(w: Win, n: nat): int {
    if w.first.None? then 0 else w.last - Base(w.first.value, n, w.id) + 1
  }

  lemma SortingKeepsIndex(s: Setup, c: Core)
    requires Aligned(s, c) && c.i < s.numElems && s.packetSize > 0
    ensures CalcBufpos(s, c).indexed == c.indexed
  {
  }

  lemma ReceivingIndexes(s: Setup, c: Core, p: Packet)
    requires s.Valid() && Aligned(s, c) && Usable(s, p)
    ensures ReceiveOne(s, c, p).indexed == SwitchBuffer(s, c).indexed
  {
    SortingKeepsIndex(s, Stage(SwitchBuffer(s, c), p));
  }

  lemma PositionIs(s: Setup, c: Core, w: Win)
    requires s.Valid() && Aligned(s, c) && Matches(s, c, w)
    ensures c.i == Position(w, s.numElems)
  {
  }

  lemma SwitchIndexes(s: Setup, c: Core, w: Win, m: nat)
    requires s.Valid() && Aligned(s, c) && Matches(s, c, w) && c.indexed == Whole(s.numElems, m)
    ensures SwitchBuffer(s, c).indexed == Whole(s.numElems, m + if IsPassed(w, s.numElems) then 1 else 0)
  {
    PassedIsFull(s, c, w);
  }

  /** During a run the index counts the files that were passed, each with all its packets. */
  lemma {:induction false} RunIndexes(s: Setup, packets: seq<Packet>)
    requires s.Valid() && forall p :: p in packets ==> Usable(s, p)
    ensures RunCore(s, packets).indexed == Whole(s.numElems, FilesPassed(s.numElems, Arrivals(s, packets)))
  {
    if packets != [] {
      var init, p := packets[..|packets| - 1], packets[|packets| - 1];
      RunIndexes(s, init);
      RunRefines(s, init);
      assert Arrivals(s, packets)[..|packets| - 1] == Arrivals(s, init);
      var c, w := RunCore(s, init), Run(s.numElems, Arrivals(s, init));
      AbortedIsOverfull(s, c, w);
      SwitchIndexes(s, c, w, FilesPassed(s.numElems, Arrivals(s, init)));
      if !Overfull(s, c) {
        ReceivingIndexes(s, c, p);
      }
    }
  }

  lemma StoppedMatches(s: Setup, packets: seq<Packet>, waiting: bool)
    requires s.Valid() && forall p :: p in packets ==> Usable(s, p)
    ensures Matches(s, StoppedCore(s, packets, waiting), Stopped(s.numElems, Arrivals(s, packets), waiting))
  {
    RunRefines(s, packets);
    if waiting {
      SwitchRefines(s, RunCore(s, packets), Run(s.numElems, Arrivals(s, packets)));
    }
  }

  lemma LastSwitchIndexes(s: Setup, packets: seq<Packet>)
    requires s.Valid() && forall p :: p in packets ==> Usable(s, p)
    ensures SwitchBuffer(s, RunCore(s, packets)).indexed
         == Whole(s.numElems, PassedAtStop(s.numElems, Arrivals(s, packets), true))
  {
    var arrivals := Arrivals(s, packets);
    var c, w, m := RunCore(s, packets), Run(s.numElems, arrivals), FilesPassed(s.numElems, arrivals);
    RunIndexes(s, packets);
    RunRefines(s, packets);
    SwitchIndexes(s, c, w, m);
  }

  lemma StoppedIndexes(s: Setup, packets: seq<Packet>, waiting: bool)
    requires s.Valid() && forall p :: p in packets ==> Usable(s, p)
    ensures StoppedCore(s, packets, waiting).indexed
         == Whole(s.numElems, PassedAtStop(s.numElems, Arrivals(s, packets), waiting))
  {
    RunIndexes(s, packets);
    if waiting {
      LastSwitchIndexes(s, packets);
    }
  }

  /** What the index counts in the end: the files passed, and the receive position in the one open. */
  function FinalCount(n: nat, arrivals: seq<Arrival>, waiting: bool): int
    requires n > 0
  {
    var w := Stopped(n, arrivals, waiting);
    Whole(n, PassedAtStop(n, arrivals, waiting)) + if w.cur.count == 0 then 0 else Position(w, n)
  }

  lemma FlushIndexes(s: Setup, packets: seq<Packet>, waiting: bool)
    requires s.Valid() && forall p :: p in packets ==> Usable(s, p)
    ensures Flush(s, StoppedCore(s, packets, waiting)).indexed == FinalCount(s.numElems, Arrivals(s, packets), waiting)
  {
    var c, w := StoppedCore(s, packets, waiting), Stopped(s.numElems, Arrivals(s, packets), waiting);
    StoppedMatches(s, packets, waiting);
    StoppedIndexes(s, packets, waiting);
    PositionIs(s, c, w);
    NoBytesNoPackets(s.packetSize, w.cur.count);
  }

  // ---------- How far the filler goes ----------

  /** With a count of m whole files and i packets, the first m files are visited whole, the next one as far
      as i, and no other. */
  lemma VisitedIs(n: nat, m: nat, i: nat, j: nat)
    requires n > 0 && i <= n
    ensures Visited(n, Some(Whole(n, m) + i), j) == if j < m then n else if j == m then i else 0
  {
    WholeIs(n, j);
    if j < m {
      WholeGrows(n, j, m);
    } else if m < j {
      WholeGrows(n, m, j);
    }
  }

  lemma VisitedGrows(n: nat, a: int, b: int, j: nat)
    requires a <= b
    ensures Visited(n, Some(a), j) <= Visited(n, Some(b), j)
  {
  }

  lemma PositionInFile(w: Win, n: nat)
    requires n > 0 && Inv(w, n)
    ensures 0 <= Position(w, n) <= n
  {
  }

  /** In the end the files that were passed are visited whole, the file after them as far as the receive
      position, and the files after that not at all. */
  lemma VisitedInTheEnd(n: nat, arrivals: seq<Arrival>, waiting: bool, j: nat)
    requires n > 0 && Inv(Stopped(n, arrivals, waiting), n)
    ensures var w, m := Stopped(n, arrivals, waiting), PassedAtStop(n, arrivals, waiting);
      Visited(n, Some(FinalCount(n, arrivals, waiting)), j)
      == if j < m then n else if j == m && w.cur.count > 0 then Position(w, n) else 0
  {
    var w := Stopped(n, arrivals, waiting);
    PositionInFile(w, n);
    VisitedIs(n, PassedAtStop(n, arrivals, waiting), if w.cur.count == 0 then 0 else Position(w, n), j);
  }

  // ---------- When no packet runs ahead ----------

  /** Every packet belongs to a file that was open, or to the one due, when it arrived: the file of the
      number after the newest so far, or an earlier one. */
  ghost predicate NeverAhead(n: nat, arrivals: seq<Arrival>)
    requires n > 0
  {
    forall t :: 1 <= t < |arrivals| ==> NotAhead(n, arrivals, t)
  }

  predicate NotAhead(n: nat, arrivals: seq<Arrival>, t: nat)
    requires n > 0 && 1 <= t < |arrivals|
  {
    InTime(arrivals[0].num, n, Newest(arrivals[..t]), arrivals[t].num)
  }

  /** The file of the number is not later than the one due after the newest number. */
  predicate InTime(first: int, n: nat, newest: int, num: int)
    requires n > 0
  {
    FileOf(first, n, num) <= FileOf(first, n, newest + 1)
  }

  /** The file due is the one of the number after the newest. */
  lemma DueFile(w: Win, n: nat)
    requires n > 0 && Ready(w, n) && w.first.Some?
    ensures FileOf(w.first.value, n, w.last + 1) == w.id
  {
    HomeIsUnique(w.first.value, n, w.last + 1, w.id, w.last + 1 - Base(w.first.value, n, w.id));
  }

  /** A packet within one file of the newest runs ahead exactly when it belongs to a later file than is due. */
  lemma RunsAheadIff(w: Win, n: nat, before: seq<Arrival>, a: Arrival)
    requires n > 0 && before != [] && Ready(w, n) && Tracking(w, n, before)
    requires a.num != Newest(before) && Newest(before) - n < a.num <= Newest(before) + n
    ensures RunsAhead(w, n, a) <==> !InTime(before[0].num, n, Newest(before), a.num)
  {
    DueFile(w, n);
    WithinOneFile(w, n, a);
  }

  /** The newest number is that of a packet received. */
  lemma {:induction false} NewestArrived(arrivals: seq<Arrival>)
    requires arrivals != []
    ensures exists i :: 0 <= i < |arrivals| && arrivals[i].num == Newest(arrivals)
  {
    if |arrivals| > 1 {
      var init := arrivals[..|arrivals| - 1];
      NewestArrived(init);
      var i :| 0 <= i < |init| && init[i].num == Newest(init);
      assert arrivals[i] == init[i];
    }
    assert arrivals[|arrivals| - 1].num <= Newest(arrivals);
  }

  lemma OtherThanNewest(arrivals: seq<Arrival>, t: nat)
    requires 1 <= t < |arrivals| && NoRepeats(arrivals)
    ensures arrivals[t].num != Newest(arrivals[..t])
  {
    NewestArrived(arrivals[..t]);
  }

  /** The state in which the next packet of an orderly stream without repeats is placed. */
  lemma ReadyAndTracking(n: nat, arrivals: seq<Arrival>)
    requires n > 0 && arrivals != [] && NoRepeats(arrivals) && Orderly(n, arrivals)
    ensures var w := Run(n, arrivals);
      !Aborted(w, n) && Ready(Switch(w, n), n) && Tracking(Switch(w, n), n, arrivals)
  {
    OrderlyRunTracks(n, arrivals);
    RunIsFaithful(n, arrivals);
    RunKeepsInv(n, arrivals);
    SwitchTracks(Run(n, arrivals), n, arrivals);
  }

  /** One packet of an orderly stream runs ahead exactly when it belongs to a later file than is due. */
  lemma AheadIff(n: nat, arrivals: seq<Arrival>, t: nat)
    requires n > 0 && 1 <= t < |arrivals| && NoRepeats(arrivals) && Orderly(n, arrivals)
    ensures var w := Run(n, arrivals[..t]);
      !Aborted(w, n) && (RunsAhead(Switch(w, n), n, arrivals[t]) <==> !NotAhead(n, arrivals, t))
  {
    var init, a := arrivals[..t], arrivals[t];
    OrderlyPrefix(n, arrivals, t);
    NoRepeatsPrefix(arrivals, t);
    ReadyAndTracking(n, init);
    OtherThanNewest(arrivals, t);
    assert InBounds(n, arrivals, t);
    var w := Run(n, init);
    RunsAheadIff(Switch(w, n), n, init, a);
    assert init[0] == arrivals[0];
  }

  /** In an orderly stream without repeats no file is opened early exactly when no packet belongs to a later
      file than is due. */
  lemma {:induction false} NoneJumpedIff(n: nat, arrivals: seq<Arrival>)
    requires n > 0 && NoRepeats(arrivals) && Orderly(n, arrivals)
    ensures FilesJumped(n, arrivals) == 0 <==> NeverAhead(n, arrivals)
  {
    if |arrivals| == 1 {
      assert arrivals[..0] == [];
    } else if |arrivals| > 1 {
      var last := |arrivals| - 1;
      var init := arrivals[..last];
      OrderlyPrefix(n, arrivals, last);
      NoneJumpedIff(n, init);
      AheadIff(n, arrivals, last);
      NeverAheadSplits(n, arrivals, init);
    }
  }

  lemma NeverAheadSplits(n: nat, arrivals: seq<Arrival>, init: seq<Arrival>)
    requires n > 0 && |arrivals| > 1 && init == arrivals[..|arrivals| - 1]
    ensures NeverAhead(n, arrivals) <==> NeverAhead(n, init) && NotAhead(n, arrivals, |arrivals| - 1)
  {
    forall t | 1 <= t < |init|
      ensures NotAhead(n, arrivals, t) <==> NotAhead(n, init, t)
    {
      assert init[..t] == arrivals[..t];
    }
  }

  /** Packets 0, 4 and 7 with three slots per file: both files after the first are opened early, the index
      never counts more than two packets, and the last slot of file 0 and all slots of files 1 and 2 are
      not visited, although file 1 is written whole. */
  lemma AheadIsNotCounted(p: Packet, q: Packet, r: Packet, waiting: bool)
    ensures var arrivals := [Arrival(0, p)] + [Arrival(4, q)] + [Arrival(7, r)];
      var w := Stopped(3, arrivals, waiting);
      && w.id == 2 && FilesJumped(3, arrivals) == 2 && PassedAtStop(3, arrivals, waiting) == 0
      && |w.handed| == 1 && w.before.Some? && w.cur.count == 1
      && FinalCount(3, arrivals, waiting) == 2
      && Visited(3, Some(2), 0) == 2 && Visited(3, Some(2), 1) == 0 && Visited(3, Some(2), 2) == 0
  {
    var a, b, c := Arrival(0, p), Arrival(4, q), Arrival(7, r);
    var w1 := START.(first := Some(0), cur := Put(EMPTY, 0, a));
    var w2 := w1.(last := 4, id := 1, cur := Put(EMPTY, 1, b), before := Some(w1.cur));
    var w3 := w2.(last := 7, id := 2, cur := Put(EMPTY, 1, c), before := Some(w2.cur),
                  handed := [Handed(0, 3, w1.cur)], missing := 2);
    assert Run(3, []) == START;
    RunExtends(3, [], a);
    assert [] + [a] == [a];
    assert Run(3, [a]) == w1;
    RunExtends(3, [a], b);
    assert Run(3, [a] + [b]) == w2;
    RunExtends(3, [a] + [b], c);
    assert Run(3, [a] + [b] + [c]) == w3;
    FilesAreOpened(3, [a] + [b] + [c]);
    NothingPassed(a, b, c);
  }

  lemma NothingPassed(a: Arrival, b: Arrival, c: Arrival)
    requires !IsPassed(Run(3, []), 3) && !IsPassed(Run(3, [a]), 3) && !IsPassed(Run(3, [a] + [b]), 3)
    ensures FilesPassed(3, [a] + [b] + [c]) == 0
  {
    assert [a][..0] == [];
    assert FilesPassed(3, [a]) == 0;
    assert ([a] + [b])[..1] == [a];
    assert FilesPassed(3, [a] + [b]) == 0;
    assert ([a] + [b] + [c])[..2] == [a] + [b];
  }
}
