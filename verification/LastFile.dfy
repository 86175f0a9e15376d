/** The last file is written only as far as packets were counted. Which file that is, and when that is far
    enough, told from the packets alone. */
module LastFile {
  import opened FileIndex
  import opened Headers
  import opened Options
  import opened Window
  import opened WindowProofs

  /** The file open when reception stops: that of the newest number, unless the streamer has gone on since
      that packet; then it is the file of the number after it. */
  function LastOpen(n: nat, arrivals: seq<Arrival>, waiting: bool): int
    requires n > 0 && arrivals != []
  {
    OpenAt(arrivals[0].num, n, Newest(arrivals), waiting || arrivals[|arrivals| - 1].num != Newest(arrivals))
  }

  function OpenAt(first: int, n: nat, newest: int, gone: bool): int
    requires n > 0
  {
    FileOf(first, n, if gone then newest + 1 else newest)
  }

  predicate Has(arrivals: seq<Arrival>, num: int) {
    exists i :: 0 <= i < |arrivals| && arrivals[i].num == num
  }

  /** No number of the file open at the end is missing in front of the newest. */
  ghost predicate NoGapAtTheEnd(n: nat, arrivals: seq<Arrival>, waiting: bool)
    requires n > 0 && arrivals != []
  {
    NoGap(arrivals, Base(arrivals[0].num, n, LastOpen(n, arrivals, waiting)), Newest(arrivals))
  }

  ghost predicate NoGap(arrivals: seq<Arrival>, from: int, to: int) {
    forall num :: from <= num <= to ==> Has(arrivals, num)
  }

  // ---------- Which file is open ----------

  lemma FileMonotone(first: int, n: nat, a: int, b: int)
    requires n > 0 && a <= b
    ensures FileOf(first, n, a) <= FileOf(first, n, b)
  {
    var f, g := FileOf(first, n, a), FileOf(first, n, b);
    Home(first, n, a);
    Home(first, n, b);
    if g < f {
      BaseGrows(first, n, g, f);
    }
  }

  lemma OpenAfterPlacing(w: Win, n: nat, a: Arrival, first: int, newest: int)
    requires n > 0 && Ready(w, n) && w.first == Some(first) && w.last == newest
    requires a.num != newest && newest - n < a.num <= newest + n
    ensures Place(w, n, a).id == OpenAt(first, n, if newest < a.num then a.num else newest, a.num < newest)
  {
    DueFile(w, n);
    WithinOneFile(w, n, a);
    if w.last < a.num {
      FileMonotone(w.first.value, n, w.last + 1, a.num);
    } else {
      FileMonotone(w.first.value, n, a.num, w.last + 1);
    }
  }

  lemma NewestOfMore(init: seq<Arrival>, a: Arrival)
    requires init != []
    ensures Newest(init + [a]) == if Newest(init) < a.num then a.num else Newest(init)
  {
    assert (init + [a])[..|init|] == init;
  }

  lemma OpenAfterStep(n: nat, init: seq<Arrival>, a: Arrival)
    requires n > 0 && init != [] && NoRepeats(init + [a]) && Orderly(n, init + [a])
    ensures Run(n, init + [a]).id == LastOpen(n, init + [a], false)
  {
    var arrivals, t := init + [a], |init|;
    assert arrivals[..t] == init && arrivals[t] == a && arrivals[0] == init[0];
    OrderlyPrefix(n, arrivals, t);
    NoRepeatsPrefix(arrivals, t);
    ReadyAndTracking(n, init);
    OtherThanNewest(arrivals, t);
    assert InBounds(n, arrivals, t);
    RunExtends(n, init, a);
    NewestOfMore(init, a);
    OpenAfterPlacing(Switch(Run(n, init), n), n, a, init[0].num, Newest(init));
  }

  lemma OpenAfterFirst(n: nat, a: Arrival)
    requires n > 0
    ensures Run(n, [a]).id == LastOpen(n, [a], false)
  {
    FirstArrival(n, a);
    HomeIsUnique(a.num, n, a.num, 0, 0);
  }

  lemma OpenWhileWaiting(n: nat, arrivals: seq<Arrival>)
    requires n > 0 && arrivals != [] && NoRepeats(arrivals) && Orderly(n, arrivals)
    ensures Switch(Run(n, arrivals), n).id == LastOpen(n, arrivals, true)
  {
    ReadyAndTracking(n, arrivals);
    OpenWhenReady(Switch(Run(n, arrivals), n), n, arrivals[0].num, Newest(arrivals));
  }

  lemma OpenWhenReady(w: Win, n: nat, first: int, newest: int)
    requires n > 0 && Ready(w, n) && w.first == Some(first) && w.last == newest
    ensures w.id == OpenAt(first, n, newest, true)
  {
    DueFile(w, n);
  }

  /** The file open when reception stops is the one the arrivals say. */
  lemma LastOpenIs(n: nat, arrivals: seq<Arrival>, waiting: bool)
    requires n > 0 && arrivals != [] && NoRepeats(arrivals) && Orderly(n, arrivals)
    ensures Stopped(n, arrivals, waiting).id == LastOpen(n, arrivals, waiting)
  {
    if waiting {
      OpenWhileWaiting(n, arrivals);
    } else if |arrivals| == 1 {
      assert arrivals == [arrivals[0]];
      OpenAfterFirst(n, arrivals[0]);
    } else {
      var init, a := arrivals[..|arrivals| - 1], arrivals[|arrivals| - 1];
      assert arrivals == init + [a];
      OpenAfterStep(n, init, a);
    }
  }

  // ---------- When nothing is cut off ----------

  lemma PlacedInCurrent(w: Win, n: nat, a: Arrival, k: nat)
    requires n > 0 && Inv(w, n) && w.first.Some? && Placed(w, n, a)
    requires k < n && a.num == Base(w.first.value, n, w.id) + k
    ensures k in w.cur.slots
  {
    HomeIsUnique(w.first.value, n, a.num, w.id, k);
  }

  /** A slot of the current file is filled exactly when its number arrived. */
  lemma FilledIffArrived(w: Win, n: nat, arrivals: seq<Arrival>, k: nat)
    requires n > 0 && arrivals != [] && Inv(w, n) && Faithful(w, arrivals) && Tracking(w, n, arrivals) && k < n
    ensures k in w.cur.slots <==> Has(arrivals, Base(w.first.value, n, w.id) + k)
  {
    var num := Base(w.first.value, n, w.id) + k;
    if k in w.cur.slots {
      var i :| 0 <= i < |arrivals| && arrivals[i] == w.cur.slots[k];
      assert arrivals[i].num == num;
    }
    if Has(arrivals, num) {
      var i :| 0 <= i < |arrivals| && arrivals[i].num == num;
      PlacedInCurrent(w, n, arrivals[i], k);
    }
  }

  /** A file filled up to slot `top` has as many packets as slots up to it, or a hole in front of it. */
  lemma CountReachesIff(f: File, top: nat)
    requires f.count == |f.slots| && (forall k :: k in f.slots ==> k <= top) && top in f.slots
    ensures (forall k :: k in f.slots ==> k < f.count) <==> (forall k: nat :: k <= top ==> k in f.slots)
  {
    SlotsFit(f, top + 1);
    ShortWriteKeepsAll(f);
  }

  lemma SlotsUpToNewest(w: Win, n: nat)
    requires n > 0 && Inv(w, n)
    ensures forall k :: k in w.cur.slots ==> k < Position(w, n)
  {
  }

  lemma NewestIsFilled(w: Win, n: nat, arrivals: seq<Arrival>, k: nat)
    requires n > 0 && arrivals != [] && Inv(w, n) && Faithful(w, arrivals) && Tracking(w, n, arrivals) && k < n
    requires Base(w.first.value, n, w.id) + k == w.last
    ensures k in w.cur.slots
  {
    NewestArrived(arrivals);
    FilledIffArrived(w, n, arrivals, k);
  }

  lemma NoGapIff(w: Win, n: nat, arrivals: seq<Arrival>, base: int, top: nat)
    requires n > 0 && arrivals != [] && Inv(w, n) && Faithful(w, arrivals) && Tracking(w, n, arrivals)
    requires base == Base(w.first.value, n, w.id) && base + top == w.last && top < n
    ensures NoGap(arrivals, base, w.last) <==> forall k: nat :: k <= top ==> k in w.cur.slots
  {
    forall k: nat | k <= top
      ensures k in w.cur.slots <==> Has(arrivals, base + k)
    {
      FilledIffArrived(w, n, arrivals, k);
    }
    if forall k: nat :: k <= top ==> k in w.cur.slots {
      forall num | base <= num <= w.last
        ensures Has(arrivals, num)
      {
        assert num - base in w.cur.slots;
      }
    }
  }

  /** Both sides, when the file open has reached its slot `top`. */
  lemma ReachedIsWholeIff(w: Win, n: nat, arrivals: seq<Arrival>, base: int, top: nat)
    requires n > 0 && arrivals != [] && Inv(w, n) && Faithful(w, arrivals) && Tracking(w, n, arrivals)
    requires base == Base(w.first.value, n, w.id) && base + top == w.last && top < n
    ensures (forall k :: k in w.cur.slots ==> k < w.cur.count) <==> NoGap(arrivals, base, w.last)
  {
    SlotsUpToNewest(w, n);
    NewestIsFilled(w, n, arrivals, top);
    CountReachesIff(w.cur, top);
    NoGapIff(w, n, arrivals, base, top);
  }

  lemma CurrentIsWholeIff(w: Win, n: nat, arrivals: seq<Arrival>, base: int)
    requires n > 0 && arrivals != [] && Inv(w, n) && Faithful(w, arrivals) && Tracking(w, n, arrivals)
    requires base == Base(w.first.value, n, w.id)
    ensures (forall k :: k in w.cur.slots ==> k < w.cur.count) <==> NoGap(arrivals, base, w.last)
  {
    if w.last >= base {
      ReachedIsWholeIff(w, n, arrivals, base, w.last - base);
    } else {
      SlotsUpToNewest(w, n);
    }
  }

  /** If no number repeats and disorder stays within one file, then no packet of the last file is cut off if
      and only if no number of that file is missing in front of the newest. */
  lemma LastFileIsWholeIff(n: nat, arrivals: seq<Arrival>, waiting: bool)
    requires n > 0 && arrivals != [] && NoRepeats(arrivals) && Orderly(n, arrivals)
    ensures var f := Stopped(n, arrivals, waiting).cur;
      (forall k :: k in f.slots ==> k < f.count) <==> NoGapAtTheEnd(n, arrivals, waiting)
  {
    var w := Stopped(n, arrivals, waiting);
    StoppedTracks(n, arrivals, waiting);
    LastOpenIs(n, arrivals, waiting);
    CurrentIsWholeIff(w, n, arrivals, Base(w.first.value, n, w.id));
  }

  // ---------- How many packets the file open has ----------

  /** How many of the arrivals belong to file f. */
  function CountIn(first: int, n: nat, arrivals: seq<Arrival>, f: int): nat
    requires n > 0
  {
    if arrivals == [] then 0 else
      CountIn(first, n, arrivals[..|arrivals| - 1], f)
      + if FileOf(first, n, arrivals[|arrivals| - 1].num) == f then 1 else 0
  }

  /** And in which slots. */
  function SlotsIn(first: int, n: nat, arrivals: seq<Arrival>, f: int): (slots: set<nat>)
    requires n > 0
  {
    if arrivals == [] then {} else
      var a := arrivals[|arrivals| - 1];
      SlotsIn(first, n, arrivals[..|arrivals| - 1], f)
      + if FileOf(first, n, a.num) == f then {SlotOf(first, n, a.num)} else {}
  }

  lemma {:induction false} InSlots(first: int, n: nat, arrivals: seq<Arrival>, f: int, k: nat)
    requires n > 0
    ensures k in SlotsIn(first, n, arrivals, f) <==> k < n && Has(arrivals, Base(first, n, f) + k)
  {
    if arrivals != [] {
      var init, a := arrivals[..|arrivals| - 1], arrivals[|arrivals| - 1];
      InSlots(first, n, init, f, k);
      HasOneMore(init, a, arrivals, Base(first, n, f) + k);
      SlotIff(first, n, a.num, f, k);
    }
  }

  lemma HasOneMore(init: seq<Arrival>, a: Arrival, all: seq<Arrival>, num: int)
    requires all == init + [a]
    ensures Has(all, num) <==> Has(init, num) || a.num == num
  {
    if Has(init, num) {
      var i :| 0 <= i < |init| && init[i].num == num;
      assert all[i].num == num;
    }
    if a.num == num {
      assert all[|init|].num == num;
    }
  }

  lemma SlotIff(first: int, n: nat, num: int, f: int, k: nat)
    requires n > 0
    ensures FileOf(first, n, num) == f && SlotOf(first, n, num) == k <==> k < n && num == Base(first, n, f) + k
  {
    Home(first, n, num);
    if k < n && num == Base(first, n, f) + k {
      HomeIsUnique(first, n, num, f, k);
    }
  }

  lemma {:induction false} SlotsAreCounted(first: int, n: nat, arrivals: seq<Arrival>, f: int)
    requires n > 0 && NoRepeats(arrivals)
    ensures |SlotsIn(first, n, arrivals, f)| == CountIn(first, n, arrivals, f)
  {
    if arrivals != [] {
      var init, a := arrivals[..|arrivals| - 1], arrivals[|arrivals| - 1];
      NoRepeatsPrefix(arrivals, |arrivals| - 1);
      SlotsAreCounted(first, n, init, f);
      if FileOf(first, n, a.num) == f {
        NewSlot(first, n, arrivals, f);
      }
    }
  }

  lemma NewSlot(first: int, n: nat, arrivals: seq<Arrival>, f: int)
    requires n > 0 && arrivals != [] && NoRepeats(arrivals)
    requires FileOf(first, n, arrivals[|arrivals| - 1].num) == f
    ensures SlotOf(first, n, arrivals[|arrivals| - 1].num) !in SlotsIn(first, n, arrivals[..|arrivals| - 1], f)
  {
    var init, a := arrivals[..|arrivals| - 1], arrivals[|arrivals| - 1];
    Home(first, n, a.num);
    InSlots(first, n, init, f, SlotOf(first, n, a.num));
  }

  /** Without repeats and with disorder within one file, the packets counted in the file open at the end are those
      that belong there. */
  lemma OpenCountIs(n: nat, arrivals: seq<Arrival>, waiting: bool)
    requires n > 0 && arrivals != [] && NoRepeats(arrivals) && Orderly(n, arrivals)
    ensures Stopped(n, arrivals, waiting).cur.count
         == CountIn(arrivals[0].num, n, arrivals, LastOpen(n, arrivals, waiting))
  {
    StoppedTracks(n, arrivals, waiting);
    LastOpenIs(n, arrivals, waiting);
    CurrentCountIs(Stopped(n, arrivals, waiting), n, arrivals);
  }

  lemma CurrentCountIs(w: Win, n: nat, arrivals: seq<Arrival>)
    requires n > 0 && arrivals != [] && NoRepeats(arrivals)
    requires Inv(w, n) && Faithful(w, arrivals) && Tracking(w, n, arrivals)
    ensures w.cur.count == CountIn(arrivals[0].num, n, arrivals, w.id)
  {
    var slots := SlotsIn(arrivals[0].num, n, arrivals, w.id);
    forall k: nat
      ensures k in w.cur.slots <==> k in slots
    {
      InSlots(arrivals[0].num, n, arrivals, w.id, k);
      if k < n {
        FilledIffArrived(w, n, arrivals, k);
      }
    }
    assert w.cur.slots.Keys == slots;
    SlotsAreCounted(arrivals[0].num, n, arrivals, w.id);
  }

  /** Packets 0 and 2 with four slots per file: both are accepted, but the file is written up to slot 1 only. */
  lemma LastPacketIsCutOff(p: Packet, waiting: bool)
    ensures var h := Finish(Stopped(4, [Arrival(0, p)] + [Arrival(2, p)], waiting), 4).handed;
      |h| == 1 && h[0].written == 2 && h[0].file.slots.Keys == {0, 2}
  {
    FirstArrival(4, Arrival(0, p));
    RunExtends(4, [Arrival(0, p)], Arrival(2, p));
    HomeIsUnique(0, 4, 2, 0, 2);
  }
}
