/** What every run of the resequencing window keeps, and what it promises over whole runs. */
module WindowProofs {
  import opened Headers
  import opened Options
  import opened Window

  // ---------- Every reachable state, whatever arrives ----------

  /** Every slot holds the packet whose number belongs there. */
  predicate Numbered(first: int, n: nat, id: int, f: File) {
    && |f.slots| <= f.count
    && forall k :: k in f.slots ==> k < n && f.slots[k].num == Base(first, n, id) + k
  }

  ghost predicate Inv(w: Win, n: nat) {
    if w.first.None? then w == START else
      && var first := w.first.value;
      && Base(first, n, w.id) - 1 <= w.last < Base(first, n, w.id) + n
      && w.cur.count <= n + 1
      && Numbered(first, n, w.id, w.cur)
      && (forall k :: k in w.cur.slots ==> w.cur.slots[k].num <= w.last)
      && (w.before.Some? ==> w.id > 0 && w.before.value.count < n && Numbered(first, n, w.id - 1, w.before.value))
      && |w.handed| + (if w.before.Some? then 1 else 0) == w.id
      && (forall j :: 0 <= j < |w.handed| ==> HandedOk(first, n, j, w.handed[j]))
  }

  predicate HandedOk(first: int, n: nat, j: int, h: Handed) {
    h.id == j && h.written == n && h.file.count <= n && Numbered(first, n, j, h.file)
  }

  lemma PutNumbered(first: int, n: nat, id: int, f: File, k: nat, a: Arrival)
    requires Numbered(first, n, id, f) && k < n && a.num == Base(first, n, id) + k
    ensures Numbered(first, n, id, Put(f, k, a))
  {
    assert f.slots[k := a].Keys == f.slots.Keys + {k};
    assert |f.slots.Keys + {k}| <= |f.slots.Keys| + 1;
  }

  lemma AdvanceInv(w: Win, n: nat)
    requires n > 0 && Inv(w, n) && w.first.Some? && !Aborted(w, n)
    ensures var w' := Advance(w, n);
      && w'.id == w.id + 1 && w'.cur == EMPTY && w'.first == w.first && w'.last == w.last
      && |w'.handed| + (if w'.before.Some? then 1 else 0) == w'.id
      && (w'.before.Some? ==> w'.before.value.count < n && Numbered(w.first.value, n, w'.id - 1, w'.before.value))
      && (forall j :: 0 <= j < |w'.handed| ==> HandedOk(w.first.value, n, j, w'.handed[j]))
  {
  }

  lemma SwitchInv(w: Win, n: nat)
    requires n > 0 && Inv(w, n) && !Aborted(w, n)
    ensures Ready(Switch(w, n), n)
  {
    if w.first.Some? {
      NextBase(w.first.value, n, w.id);
      AdvanceInv(w, n);
    }
  }

  /** The states in which a packet is placed: the current file has been left if it was passed. */
  ghost predicate Ready(w: Win, n: nat) {
    Inv(w, n) && !Aborted(w, n) && (w.first.Some? ==> w.last < Base(w.first.value, n, w.id) + n - 1)
  }

  lemma PlaceHere(w: Win, n: nat, a: Arrival)
    requires n > 0 && Ready(w, n) && w.first.Some? && a.num != w.last && FileOf(w.first.value, n, a.num) == w.id
    ensures Inv(Place(w, n, a), n)
  {
    Home(w.first.value, n, a.num);
    PutNumbered(w.first.value, n, w.id, w.cur, SlotOf(w.first.value, n, a.num), a);
  }

  lemma PlaceAhead(w: Win, n: nat, a: Arrival)
    requires n > 0 && Ready(w, n) && w.first.Some? && a.num != w.last && FileOf(w.first.value, n, a.num) == w.id + 1
    ensures Inv(Place(w, n, a), n)
  {
    Home(w.first.value, n, a.num);
    AdvanceInv(w, n);
    PutNumbered(w.first.value, n, w.id + 1, EMPTY, SlotOf(w.first.value, n, a.num), a);
  }

  lemma PlaceBefore(w: Win, n: nat, a: Arrival)
    requires n > 0 && Ready(w, n) && w.first.Some? && a.num != w.last && FileOf(w.first.value, n, a.num) == w.id - 1
    ensures Inv(Place(w, n, a), n)
  {
    if w.before.Some? {
      Home(w.first.value, n, a.num);
      PutNumbered(w.first.value, n, w.id - 1, w.before.value, SlotOf(w.first.value, n, a.num), a);
    }
  }

  lemma PlaceInv(w: Win, n: nat, a: Arrival)
    requires n > 0 && Ready(w, n)
    ensures Inv(Place(w, n, a), n)
  {
    if w.first.None? {
      PutNumbered(a.num, n, 0, w.cur, 0, a);
    } else if a.num != w.last {
      var f := FileOf(w.first.value, n, a.num);
      if f == w.id {
        PlaceHere(w, n, a);
      } else if f == w.id + 1 {
        PlaceAhead(w, n, a);
      } else if f == w.id - 1 {
        PlaceBefore(w, n, a);
      }
    }
  }

  /** Every state a run can reach: numbers advance inside the current file, every stored packet sits
      in the slot its number demands, and files leave in the order 0, 1, 2, ... with nothing skipped. */
  lemma {:induction false} RunKeepsInv(n: nat, arrivals: seq<Arrival>)
    requires n > 0
    ensures Inv(Run(n, arrivals), n)
  {
    if arrivals != [] {
      var init := arrivals[..|arrivals| - 1];
      RunKeepsInv(n, init);
      var w := Run(n, init);
      if !Aborted(w, n) {
        SwitchInv(w, n);
        PlaceInv(Switch(w, n), n, arrivals[|arrivals| - 1]);
      }
    }
  }

  // ---------- Accounting, whatever arrives ----------

  function CountHanded(handed: seq<Handed>): nat {
    if handed == [] then 0 else CountHanded(handed[..|handed| - 1]) + handed[|handed| - 1].file.count
  }

  function HolesHanded(handed: seq<Handed>, n: nat): int {
    if handed == [] then 0 else HolesHanded(handed[..|handed| - 1], n) + n - handed[|handed| - 1].file.count
  }

  lemma HandOneMore(handed: seq<Handed>, h: Handed, n: nat)
    ensures CountHanded(handed + [h]) == CountHanded(handed) + h.file.count
    ensures HolesHanded(handed + [h], n) == HolesHanded(handed, n) + n - h.file.count
  {
    assert (handed + [h])[..|handed|] == handed;
  }

  /** Every packet the window has seen, by what became of it. */
  function Seen(w: Win): nat {
    w.lost + w.repeated + CountHanded(w.handed) + (if w.before.Some? then w.before.value.count else 0) + w.cur.count
  }

  /** The part of the missing counter that is explained by holes in files given up on. */
  function Unexplained(w: Win, n: nat): int {
    w.missing - w.lost - HolesHanded(w.handed, n)
  }

  lemma AdvanceAccounts(w: Win, n: nat)
    ensures var w' := Advance(w, n);
      Seen(w') == Seen(w) && Unexplained(w', n) == Unexplained(w, n)
  {
    var handed1 := w.handed;
    if w.before.Some? {
      HandOneMore(w.handed, Handed(w.id - 1, n, w.before.value), n);
      handed1 := w.handed + [Handed(w.id - 1, n, w.before.value)];
    }
    HandOneMore(handed1, Handed(w.id, n, w.cur), n);
  }

  lemma AheadAccounts(w: Win, n: nat, k: nat, a: Arrival)
    ensures var w' := PutAhead(w, n, k, a);
      Seen(w') == Seen(w) + 1 && Unexplained(w', n) == Unexplained(w, n)
  {
    AdvanceAccounts(w, n);
    OneMoreAccounts(Advance(w, n), k, a, a.num, n);
  }

  lemma OneMoreAccounts(w: Win, k: nat, a: Arrival, last: int, n: nat)
    ensures var w' := w.(cur := Put(w.cur, k, a), last := last);
      Seen(w') == Seen(w) + 1 && Unexplained(w', n) == Unexplained(w, n)
  {
  }

  lemma BeforeAccounts(w: Win, n: nat, k: nat, a: Arrival)
    requires w.before.Some?
    ensures var w' := PutBefore(w, n, k, a);
      Seen(w') == Seen(w) + 1 && Unexplained(w', n) == Unexplained(w, n)
  {
    HandOneMore(w.handed, Handed(w.id - 1, n, Put(w.before.value, k, a)), n);
  }

  lemma PlaceAccounts(w: Win, n: nat, a: Arrival)
    requires n > 0 && Inv(w, n)
    ensures var w' := Place(w, n, a);
      Seen(w') == Seen(w) + 1 && Unexplained(w', n) == Unexplained(w, n)
  {
    if w.first.Some? && a.num != w.last {
      var f, k := FileOf(w.first.value, n, a.num), SlotOf(w.first.value, n, a.num);
      if f == w.id + 1 {
        AheadAccounts(w, n, k, a);
      } else if f == w.id - 1 && w.before.Some? {
        BeforeAccounts(w, n, k, a);
      }
    }
  }

  /** Conservation: every packet that arrived was accepted into exactly one file, ignored as a repeat
      of the latest, or dropped; and the missing counter is the dropped packets plus the holes of the
      files that were handed over incomplete. */
  lemma {:induction false} RunAccounts(n: nat, arrivals: seq<Arrival>)
    requires n > 0
    ensures var w := Run(n, arrivals);
      && (!Aborted(w, n) ==> Seen(w) == |arrivals|)
      && w.missing == w.lost + HolesHanded(w.handed, n)
  {
    if arrivals != [] {
      var init := arrivals[..|arrivals| - 1];
      RunAccounts(n, init);
      RunKeepsInv(n, init);
      var w := Run(n, init);
      if !Aborted(w, n) {
        AdvanceAccounts(w, n);
        SwitchInv(w, n);
        PlaceAccounts(Switch(w, n), n, arrivals[|arrivals| - 1]);
      }
    }
  }

  // ---------- What is stored arrived ----------

  predicate From(f: File, arrivals: seq<Arrival>) {
    forall k :: k in f.slots ==> f.slots[k] in arrivals
  }

  predicate AllFrom(w: Win, arrivals: seq<Arrival>) {
    && From(w.cur, arrivals)
    && (w.before.Some? ==> From(w.before.value, arrivals))
    && forall j :: 0 <= j < |w.handed| ==> From(w.handed[j].file, arrivals)
  }

  lemma AdvanceFrom(w: Win, n: nat, arrivals: seq<Arrival>)
    requires AllFrom(w, arrivals)
    ensures AllFrom(Advance(w, n), arrivals)
  {
  }

  lemma PlaceFrom(w: Win, n: nat, arrivals: seq<Arrival>, a: Arrival)
    requires n > 0 && AllFrom(w, arrivals) && a in arrivals
    ensures AllFrom(Place(w, n, a), arrivals)
  {
    AdvanceFrom(w, n, arrivals);
    if w.first.Some? && a.num != w.last {
      var f, k := FileOf(w.first.value, n, a.num), SlotOf(w.first.value, n, a.num);
      if f == w.id {
        assert From(Put(w.cur, k, a), arrivals);
      } else if f == w.id + 1 {
        assert From(Put(EMPTY, k, a), arrivals);
      } else if f == w.id - 1 && w.before.Some? {
        assert From(Put(w.before.value, k, a), arrivals);
      }
    }
  }

  /** Nothing is ever stored that did not arrive. */
  lemma {:induction false} RunStoresArrivals(n: nat, arrivals: seq<Arrival>)
    requires n > 0
    ensures AllFrom(Run(n, arrivals), arrivals)
  {
    if arrivals != [] {
      var init := arrivals[..|arrivals| - 1];
      RunStoresArrivals(n, init);
      var w := Run(n, init);
      assert forall x :: x in init ==> x in arrivals;
      assert AllFrom(w, arrivals);
      AdvanceFrom(w, n, arrivals);
      if !Aborted(w, n) {
        PlaceFrom(Switch(w, n), n, arrivals, arrivals[|arrivals| - 1]);
      }
    }
  }

  lemma FinishFrom(w: Win, n: nat, arrivals: seq<Arrival>)
    requires AllFrom(w, arrivals)
    ensures AllFrom(Finish(w, n), arrivals)
  {
  }

  // ---------- Repeats, exactly ----------

  /** The packet goes to a slot that is filled already. */
  predicate Overwrites(w: Win, n: nat, a: Arrival)
    requires n > 0
  {
    && w.first.Some? && a.num != w.last
    && var f, k := FileOf(w.first.value, n, a.num), SlotOf(w.first.value, n, a.num);
    || (f == w.id && k in w.cur.slots)
    || (f == w.id - 1 && w.before.Some? && k in w.before.value.slots)
  }

  function OverwritesIn(n: nat, arrivals: seq<Arrival>): nat
    requires n > 0
  {
    if arrivals == [] then 0 else
      var init, a := arrivals[..|arrivals| - 1], arrivals[|arrivals| - 1];
      var w := Run(n, init);
      OverwritesIn(n, init) + if !Aborted(w, n) && Overwrites(Switch(w, n), n, a) then 1 else 0
  }

  /** How far the count of a file overstates the slots it has filled. */
  function Excess(f: File): int {
    f.count - |f.slots|
  }

  function ExcessHanded(handed: seq<Handed>): int {
    if handed == [] then 0 else ExcessHanded(handed[..|handed| - 1]) + Excess(handed[|handed| - 1].file)
  }

  function TotalExcess(w: Win): int {
    ExcessHanded(w.handed) + (if w.before.Some? then Excess(w.before.value) else 0) + Excess(w.cur)
  }

  lemma ExcessOneMore(handed: seq<Handed>, h: Handed)
    ensures ExcessHanded(handed + [h]) == ExcessHanded(handed) + Excess(h.file)
  {
    assert (handed + [h])[..|handed|] == handed;
  }

  lemma PutExcess(f: File, k: nat, a: Arrival)
    ensures Excess(Put(f, k, a)) == Excess(f) + if k in f.slots then 1 else 0
  {
    assert f.slots[k := a].Keys == f.slots.Keys + {k};
  }

  lemma AdvanceExcess(w: Win, n: nat)
    ensures TotalExcess(Advance(w, n)) == TotalExcess(w)
  {
    var handed1 := w.handed;
    if w.before.Some? {
      ExcessOneMore(w.handed, Handed(w.id - 1, n, w.before.value));
      handed1 := w.handed + [Handed(w.id - 1, n, w.before.value)];
    }
    ExcessOneMore(handed1, Handed(w.id, n, w.cur));
  }

  lemma PlaceExcess(w: Win, n: nat, a: Arrival)
    requires n > 0 && Inv(w, n)
    ensures TotalExcess(Place(w, n, a)) == TotalExcess(w) + if Overwrites(w, n, a) then 1 else 0
  {
    if w.first.None? {
      PutExcess(w.cur, 0, a);
    } else if a.num != w.last {
      var f, k := FileOf(w.first.value, n, a.num), SlotOf(w.first.value, n, a.num);
      if f == w.id {
        PutExcess(w.cur, k, a);
      } else if f == w.id + 1 {
        AdvanceExcess(w, n);
        PutExcess(EMPTY, k, a);
      } else if f == w.id - 1 && w.before.Some? {
        PutExcess(w.before.value, k, a);
        ExcessOneMore(w.handed, Handed(w.id - 1, n, Put(w.before.value, k, a)));
      }
    }
  }

  /** The counters overstate the filled slots by exactly the packets that overwrote an older copy, so
      they are exact for every file if and only if no packet did. */
  lemma {:induction false} CountsAreOffByOverwrites(n: nat, arrivals: seq<Arrival>)
    requires n > 0
    ensures TotalExcess(Run(n, arrivals)) == OverwritesIn(n, arrivals)
  {
    if arrivals != [] {
      var init := arrivals[..|arrivals| - 1];
      CountsAreOffByOverwrites(n, init);
      RunKeepsInv(n, init);
      var w := Run(n, init);
      if !Aborted(w, n) {
        AdvanceExcess(w, n);
        SwitchInv(w, n);
        PlaceExcess(Switch(w, n), n, arrivals[|arrivals| - 1]);
      }
    }
  }

  lemma RunExtends(n: nat, arrivals: seq<Arrival>, a: Arrival)
    requires n > 0 && !Aborted(Run(n, arrivals), n)
    ensures Run(n, arrivals + [a]) == Step(Run(n, arrivals), n, a)
  {
    assert (arrivals + [a])[..|arrivals|] == arrivals;
  }

  lemma FirstArrival(n: nat, a: Arrival)
    requires n > 0
    ensures Run(n, [a]) == START.(first := Some(a.num), last := a.num, cur := Put(EMPTY, 0, a))
  {
    assert [a][..0] == [];
    assert Run(n, [a][..0]) == START;
  }

  /** A late repeat does this: packets 0, 2 and 0 again with two slots per file hand over file 0 as
      complete although its slot 1 never arrived. */
  lemma LateRepeatCompletesAFile(p: Packet)
    ensures var w := Run(2, [Arrival(0, p)] + [Arrival(2, p)] + [Arrival(0, p)]);
      |w.handed| == 1 && w.handed[0].file.count == 2 && 1 !in w.handed[0].file.slots
  {
    var a, b := Arrival(0, p), Arrival(2, p);
    FirstArrival(2, a);
    RunExtends(2, [a], b);
    AheadOfLateRepeat(Run(2, [a]), p);
    RunExtends(2, [a] + [b], a);
    LateRepeatStep(Run(2, [a] + [b]), p);
  }

  lemma AheadOfLateRepeat(w: Win, p: Packet)
    requires w == START.(first := Some(0), cur := Put(EMPTY, 0, Arrival(0, p)))
    ensures var w' := Step(w, 2, Arrival(2, p));
      && w'.first == Some(0) && w'.last == 2 && w'.id == 1 && w'.cur.count == 1 && w'.handed == []
      && w'.before == Some(File(1, map[0 := Arrival(0, p)]))
  {
    HomeIsUnique(0, 2, 2, 1, 0);
  }

  lemma LateRepeatStep(w: Win, p: Packet)
    requires w.first == Some(0) && w.last == 2 && w.id == 1 && w.handed == []
    requires w.before == Some(File(1, map[0 := Arrival(0, p)]))
    ensures var w' := Step(w, 2, Arrival(0, p));
      |w'.handed| == 1 && w'.handed[0].file.count == 2 && 1 !in w'.handed[0].file.slots
  {
    HomeIsUnique(0, 2, 0, 0, 0);
  }

  // ---------- Runs in which no packet number repeats ----------

  predicate NoRepeats(arrivals: seq<Arrival>) {
    forall i, j :: 0 <= i < j < |arrivals| ==> arrivals[i].num != arrivals[j].num
  }

  /** The count is the number of filled slots, and what fills them arrived. */
  ghost predicate Exact(f: File, arrivals: seq<Arrival>) {
    f.count == |f.slots| && forall k :: k in f.slots ==> f.slots[k] in arrivals
  }

  ghost predicate Faithful(w: Win, arrivals: seq<Arrival>) {
    && w.repeated == 0
    && (w.first.Some? ==> exists x :: x in arrivals && x.num == w.last)
    && Exact(w.cur, arrivals)
    && (w.before.Some? ==> Exact(w.before.value, arrivals))
    && forall j :: 0 <= j < |w.handed| ==> Exact(w.handed[j].file, arrivals)
  }

  function Below(n: nat): (s: set<nat>)
    ensures |s| == n && forall k: nat :: k in s <==> k < n
  {
    if n == 0 then {} else Below(n - 1) + {n - 1}
  }

  lemma SubsetSize(a: set<nat>, b: set<nat>)
    requires a <= b
    ensures |a| <= |b|
    ensures |a| == |b| ==> a == b
  {
    assert b == a + (b - a);
    assert |b| == |a| + |b - a|;
  }

  /** A file whose slots lie below m holds at most m packets, and m only if every slot is filled. */
  lemma SlotsFit(f: File, m: nat)
    requires forall k :: k in f.slots ==> k < m
    ensures |f.slots| <= m
    ensures |f.slots| == m <==> forall k :: 0 <= k < m ==> k in f.slots
  {
    SubsetSize(f.slots.Keys, Below(m));
    if forall k :: 0 <= k < m ==> k in f.slots {
      assert f.slots.Keys == Below(m);
    }
  }

  lemma PutExact(first: int, n: nat, id: int, f: File, k: nat, a: Arrival, arrivals: seq<Arrival>)
    requires Exact(f, arrivals) && Numbered(first, n, id, f)
    requires a.num == Base(first, n, id) + k
    requires forall x :: x in arrivals ==> x.num != a.num
    ensures k !in f.slots && Exact(Put(f, k, a), arrivals + [a])
  {
    assert f.slots[k := a].Keys == f.slots.Keys + {k};
  }

  lemma FaithfulGrows(w: Win, arrivals: seq<Arrival>, a: Arrival)
    requires Faithful(w, arrivals)
    ensures Faithful(w, arrivals + [a])
  {
    if w.first.Some? {
      var x :| x in arrivals && x.num == w.last;
      assert x in arrivals + [a];
    }
  }

  lemma AdvanceFaithful(w: Win, n: nat, arrivals: seq<Arrival>)
    requires Faithful(w, arrivals)
    ensures Faithful(Advance(w, n), arrivals)
  {
  }

  /** When the stream runs ahead into the next file, the file it leaves is never complete: its last
      slot has not been reached. So the buffer the early packet is copied out of is still held. */
  lemma LeftBehindIncomplete(w: Win, n: nat, arrivals: seq<Arrival>)
    requires n > 0 && Ready(w, n) && Faithful(w, arrivals) && w.first.Some?
    ensures w.cur.count < n
    ensures Advance(w, n).before == Some(w.cur)
  {
    SlotsFit(w.cur, n - 1);
  }

  /** In any stream: a file is complete before its last slot was reached only if a packet in it was
      overwritten. */
  lemma FullEarlyIsOverwritten(w: Win, n: nat)
    requires n > 0 && Ready(w, n) && w.first.Some? && w.cur.count == n
    ensures Excess(w.cur) > 0
  {
    SlotsFit(w.cur, n - 1);
  }

  lemma HereFaithful(w: Win, n: nat, arrivals: seq<Arrival>, a: Arrival, k: nat)
    requires Faithful(w, arrivals) && w.first.Some? && Numbered(w.first.value, n, w.id, w.cur)
    requires a.num == Base(w.first.value, n, w.id) + k && forall x :: x in arrivals ==> x.num != a.num
    ensures Faithful(PutHere(w, k, a), arrivals + [a])
  {
    FaithfulGrows(w, arrivals, a);
    assert a in arrivals + [a];
    PutExact(w.first.value, n, w.id, w.cur, k, a, arrivals);
  }

  lemma AheadFaithful(w: Win, n: nat, arrivals: seq<Arrival>, a: Arrival, k: nat)
    requires Faithful(w, arrivals) && w.first.Some?
    requires a.num == Base(w.first.value, n, w.id + 1) + k && forall x :: x in arrivals ==> x.num != a.num
    ensures Faithful(PutAhead(w, n, k, a), arrivals + [a])
  {
    AdvanceFaithful(w, n, arrivals);
    FaithfulGrows(Advance(w, n), arrivals, a);
    assert a in arrivals + [a];
    PutExact(w.first.value, n, w.id + 1, EMPTY, k, a, arrivals);
  }

  lemma BeforeFaithful(w: Win, n: nat, arrivals: seq<Arrival>, a: Arrival, k: nat)
    requires Faithful(w, arrivals) && w.first.Some? && w.before.Some?
    requires Numbered(w.first.value, n, w.id - 1, w.before.value)
    requires a.num == Base(w.first.value, n, w.id - 1) + k && forall x :: x in arrivals ==> x.num != a.num
    ensures Faithful(PutBefore(w, n, k, a), arrivals + [a])
  {
    FaithfulGrows(w, arrivals, a);
    PutExact(w.first.value, n, w.id - 1, w.before.value, k, a, arrivals);
  }

  lemma PlaceFaithful(w: Win, n: nat, arrivals: seq<Arrival>, a: Arrival)
    requires n > 0 && Ready(w, n) && Faithful(w, arrivals)
    requires forall x :: x in arrivals ==> x.num != a.num
    ensures Faithful(Place(w, n, a), arrivals + [a])
  {
    FaithfulGrows(w, arrivals, a);
    assert a in arrivals + [a];
    if w.first.None? {
      PutExact(a.num, n, 0, w.cur, 0, a, arrivals);
    } else {
      var f, k := FileOf(w.first.value, n, a.num), SlotOf(w.first.value, n, a.num);
      Home(w.first.value, n, a.num);
      if f == w.id {
        HereFaithful(w, n, arrivals, a, k);
      } else if f == w.id + 1 {
        AheadFaithful(w, n, arrivals, a, k);
      } else if f == w.id - 1 && w.before.Some? {
        BeforeFaithful(w, n, arrivals, a, k);
      }
    }
  }

  lemma PlaceNeverOverfills(w: Win, n: nat)
    requires n > 0 && Inv(w, n) && w.cur.count == |w.cur.slots|
    ensures !Aborted(w, n)
  {
    if w.first.Some? {
      SlotsFit(w.cur, n);
    }
  }

  /** Without repeats the byte counters are exact: each counts the filled slots, nothing is ignored,
      and the assertion on the counter never stops the run. */
  lemma {:induction false} RunIsFaithful(n: nat, arrivals: seq<Arrival>)
    requires n > 0 && NoRepeats(arrivals)
    ensures var w := Run(n, arrivals);
      !Aborted(w, n) && Faithful(w, arrivals)
  {
    if arrivals != [] {
      var init, a := arrivals[..|arrivals| - 1], arrivals[|arrivals| - 1];
      RunIsFaithful(n, init);
      RunKeepsInv(n, init);
      RunKeepsInv(n, arrivals);
      SwitchInv(Run(n, init), n);
      AdvanceFaithful(Run(n, init), n, init);
      PlaceFaithful(Switch(Run(n, init), n), n, init, a);
      assert init + [a] == arrivals;
      PlaceNeverOverfills(Run(n, arrivals), n);
    }
  }

  // ---------- Handing over ----------

  lemma StepOnlyHandsOver(w: Win, n: nat, a: Arrival)
    requires n > 0
    ensures w.handed <= Step(w, n, a).handed
  {
    assert w.handed <= Switch(w, n).handed;
    assert Switch(w, n).handed <= Place(Switch(w, n), n, a).handed;
  }

  /** A file that was handed over is never taken back, changed or handed over again. */
  lemma {:induction false} HandedOverForGood(n: nat, arrivals: seq<Arrival>, t: nat)
    requires n > 0 && t <= |arrivals|
    ensures Run(n, arrivals[..t]).handed <= Run(n, arrivals).handed
  {
    if t == |arrivals| {
      assert arrivals[..t] == arrivals;
    } else {
      var init := arrivals[..|arrivals| - 1];
      HandedOverForGood(n, init, t);
      assert init[..t] == arrivals[..t];
      var w := Run(n, init);
      StepOnlyHandsOver(w, n, arrivals[|arrivals| - 1]);
    }
  }

  lemma StoppedInv(n: nat, arrivals: seq<Arrival>, waiting: bool)
    requires n > 0 && !Aborted(Run(n, arrivals), n)
    ensures Inv(Stopped(n, arrivals, waiting), n) && !Aborted(Stopped(n, arrivals, waiting), n)
  {
    RunKeepsInv(n, arrivals);
    SwitchInv(Run(n, arrivals), n);
  }

  /** Including the final flush, files are handed over in the order 0, 1, 2, ..., each once and whole;
      only the last one may be written short, and only an empty last file is not handed over. */
  lemma HandedInOrder(n: nat, arrivals: seq<Arrival>, waiting: bool)
    requires n > 0 && !Aborted(Run(n, arrivals), n)
    ensures var w := Stopped(n, arrivals, waiting);
      var h := Finish(w, n).handed;
      && w.handed <= h
      && |h| == w.id + (if w.cur.count == 0 then 0 else 1)
      && (w.first.Some? ==> forall j :: 0 <= j < |h| ==>
            h[j].id == j && Numbered(w.first.value, n, j, h[j].file)
            && h[j].written == if j < w.id then n else w.cur.count)
  {
    StoppedInv(n, arrivals, waiting);
  }

  /** The last file is written only as far as packets were counted. Everything in it reaches the disk
      exactly when there is no hole in front of its last packet. */
  lemma ShortWriteKeepsAll(f: File)
    requires f.count == |f.slots|
    ensures (forall k :: k in f.slots ==> k < f.count) <==> (forall k :: 0 <= k < f.count ==> k in f.slots)
  {
    if forall k :: k in f.slots ==> k < f.count {
      SlotsFit(f, f.count);
    }
    if forall k :: 0 <= k < f.count ==> k in f.slots {
      assert Below(f.count) <= f.slots.Keys;
      SubsetSize(Below(f.count), f.slots.Keys);
    }
  }

  // ---------- Bounded disorder loses nothing ----------

  function Newest(arrivals: seq<Arrival>): (m: int)
    requires arrivals != []
    ensures forall x :: x in arrivals ==> x.num <= m
  {
    var a := arrivals[|arrivals| - 1].num;
    if |arrivals| == 1 then a else
      var m := Newest(arrivals[..|arrivals| - 1]);
      if m < a then a else m
  }

  /** No packet is older than the first one, and each is less than one file behind, or at most one
      file ahead of, the newest packet before it. */
  ghost predicate Orderly(n: nat, arrivals: seq<Arrival>) {
    forall t :: 1 <= t < |arrivals| ==> InBounds(n, arrivals, t)
  }

  predicate InBounds(n: nat, arrivals: seq<Arrival>, t: nat)
    requires 1 <= t < |arrivals|
  {
    && arrivals[0].num <= arrivals[t].num
    && Newest(arrivals[..t]) - n < arrivals[t].num <= Newest(arrivals[..t]) + n
  }

  predicate InSlot(f: File, k: nat, a: Arrival) {
    k in f.slots && f.slots[k] == a
  }

  predicate Placed(w: Win, n: nat, a: Arrival)
    requires n > 0 && w.first.Some?
  {
    var f, k := FileOf(w.first.value, n, a.num), SlotOf(w.first.value, n, a.num);
    || (0 <= f < |w.handed| && InSlot(w.handed[f].file, k, a))
    || (f == w.id - 1 && w.before.Some? && InSlot(w.before.value, k, a))
    || (f == w.id && InSlot(w.cur, k, a))
  }

  /** A file is missing from the window only after it was handed over complete. */
  ghost predicate GoneIsComplete(w: Win, n: nat) {
    w.before.None? && w.id > 0 ==> |w.handed| == w.id && w.handed[w.id - 1].file.count == n
  }

  ghost predicate Tracking(w: Win, n: nat, arrivals: seq<Arrival>)
    requires n > 0 && arrivals != []
  {
    && w.lost == 0
    && w.first == Some(arrivals[0].num)
    && w.last == Newest(arrivals)
    && GoneIsComplete(w, n)
    && forall x :: x in arrivals ==> Placed(w, n, x)
  }

  lemma AdvanceTracks(w: Win, n: nat, arrivals: seq<Arrival>)
    requires n > 0 && arrivals != [] && Inv(w, n) && !Aborted(w, n) && Tracking(w, n, arrivals)
    ensures Tracking(Advance(w, n), n, arrivals)
  {
    forall x | x in arrivals
      ensures Placed(Advance(w, n), n, x)
    {
      assert Placed(w, n, x);
    }
  }

  lemma CompleteFileHas(first: int, n: nat, id: int, f: File, num: int)
    requires n > 0 && Numbered(first, n, id, f) && f.count == |f.slots| == n && FileOf(first, n, num) == id
    ensures SlotOf(first, n, num) in f.slots && f.slots[SlotOf(first, n, num)].num == num
  {
    SlotsFit(f, n);
    Home(first, n, num);
  }

  lemma NoFileBeforeTheFirst(first: int, n: nat, num: int)
    requires n > 0 && first <= num
    ensures FileOf(first, n, num) >= 0
  {
  }

  /** A complete file already has every number that belongs in it. */
  lemma CompleteFileTakesNoMore(first: int, n: nat, id: int, f: File, arrivals: seq<Arrival>, a: Arrival)
    requires n > 0 && Numbered(first, n, id, f) && Exact(f, arrivals) && f.count == n
    requires forall x :: x in arrivals ==> x.num != a.num
    ensures FileOf(first, n, a.num) != id
  {
    if FileOf(first, n, a.num) == id {
      CompleteFileHas(first, n, id, f, a.num);
      assert false;
    }
  }

  /** The file a late packet is one behind for is still hanging: if it were gone it would be complete,
      and then the packet would be a repeat. */
  lemma LatePacketFindsItsFile(w: Win, n: nat, arrivals: seq<Arrival>, a: Arrival)
    requires n > 0 && w.first.Some? && GoneIsComplete(w, n) && Faithful(w, arrivals)
    requires forall j :: 0 <= j < |w.handed| ==> HandedOk(w.first.value, n, j, w.handed[j])
    requires forall x :: x in arrivals ==> x.num != a.num
    requires w.first.value <= a.num && FileOf(w.first.value, n, a.num) == w.id - 1
    ensures w.before.Some?
  {
    NoFileBeforeTheFirst(w.first.value, n, a.num);
    if w.before.None? {
      CompleteFileTakesNoMore(w.first.value, n, w.id - 1, w.handed[w.id - 1].file, arrivals, a);
    }
  }

  lemma WithinOneFile(w: Win, n: nat, a: Arrival)
    requires n > 0 && Ready(w, n) && w.first.Some? && w.last - n < a.num <= w.last + n
    ensures w.id - 1 <= FileOf(w.first.value, n, a.num) <= w.id + 1
  {
    var first := w.first.value;
    var f := FileOf(first, n, a.num);
    Home(first, n, a.num);
    NextBase(first, n, w.id);
    NextBase(first, n, w.id - 1);
    NextBase(first, n, w.id + 1);
    if f < w.id - 1 {
      BaseGrows(first, n, f, w.id - 1);
    } else if f > w.id + 1 {
      BaseGrows(first, n, w.id + 1, f);
    }
  }

  /** Another number means another slot or file, so another packet is never overwritten. */
  lemma DifferentSlots(first: int, n: nat, a: int, x: int)
    requires n > 0 && a != x && FileOf(first, n, a) == FileOf(first, n, x)
    ensures SlotOf(first, n, a) != SlotOf(first, n, x)
  {
    Home(first, n, a);
    Home(first, n, x);
  }

  /** Where the window keeps file f, if it still has it or handed it over. */
  function Kept(w: Win, f: int): Option<File> {
    if 0 <= f < |w.handed| then Some(w.handed[f].file)
    else if f == w.id - 1 && w.before.Some? then w.before
    else if f == w.id then Some(w.cur)
    else None
  }

  lemma PlacedIsKept(w: Win, n: nat, x: Arrival)
    requires n > 0 && Inv(w, n) && w.first.Some?
    ensures var kept := Kept(w, FileOf(w.first.value, n, x.num));
      Placed(w, n, x) <==> kept.Some? && InSlot(kept.value, SlotOf(w.first.value, n, x.num), x)
  {
  }

  /** Placing a packet puts it in its own file and leaves every other file as it was. */
  lemma PlaceIsLocal(w: Win, n: nat, a: Arrival, f: int)
    requires n > 0 && Ready(w, n) && w.first.Some? && a.num != w.last
    requires Kept(w, f).Some?
    ensures Kept(Place(w, n, a), f)
         == if f == FileOf(w.first.value, n, a.num) && f >= |w.handed|
            then Some(Put(Kept(w, f).value, SlotOf(w.first.value, n, a.num), a)) else Kept(w, f)
  {
    AdvanceInv(w, n);
  }

  lemma PlaceKeepsOthers(w: Win, n: nat, a: Arrival, x: Arrival)
    requires n > 0 && Ready(w, n) && w.first.Some? && a.num != w.last && x.num != a.num && Placed(w, n, x)
    ensures Placed(Place(w, n, a), n, x)
  {
    var f := FileOf(w.first.value, n, x.num);
    PlacedIsKept(w, n, x);
    PlaceIsLocal(w, n, a, f);
    PlaceInv(w, n, a);
    PlaceKeepsFirst(w, n, a);
    PlacedIsKept(Place(w, n, a), n, x);
    if f == FileOf(w.first.value, n, a.num) {
      DifferentSlots(w.first.value, n, a.num, x.num);
    }
  }

  lemma PlaceKeepsFirst(w: Win, n: nat, a: Arrival)
    requires n > 0 && w.first.Some?
    ensures Place(w, n, a).first == w.first
  {
  }

  lemma NewlyPlaced(w: Win, n: nat, a: Arrival)
    requires n > 0 && Ready(w, n) && w.first.Some? && a.num != w.last
    requires var f := FileOf(w.first.value, n, a.num);
      f == w.id || f == w.id + 1 || (f == w.id - 1 && w.before.Some?)
    ensures Placed(Place(w, n, a), n, a) && Place(w, n, a).lost == w.lost
  {
    AdvanceInv(w, n);
  }

  /** The rest of what tracking says, after a packet found its file. */
  lemma PlaceAdvancesNewest(w: Win, n: nat, a: Arrival)
    requires n > 0 && w.first.Some? && a.num != w.last && GoneIsComplete(w, n)
    requires Base(w.first.value, n, w.id) - 1 <= w.last < Base(w.first.value, n, w.id) + n - 1
    requires |w.handed| + (if w.before.Some? then 1 else 0) == w.id
    requires var f := FileOf(w.first.value, n, a.num);
      f == w.id || f == w.id + 1 || (f == w.id - 1 && w.before.Some?)
    ensures var w' := Place(w, n, a);
      && w'.first == w.first
      && w'.last == (if w.last < a.num then a.num else w.last)
      && GoneIsComplete(w', n)
  {
    Home(w.first.value, n, a.num);
    NextBase(w.first.value, n, w.id);
    NextBase(w.first.value, n, w.id - 1);
  }

  lemma PlaceTracks(w: Win, n: nat, arrivals: seq<Arrival>, a: Arrival)
    requires n > 0 && arrivals != [] && Ready(w, n) && Faithful(w, arrivals) && Tracking(w, n, arrivals)
    requires forall x :: x in arrivals ==> x.num != a.num
    requires arrivals[0].num <= a.num && w.last - n < a.num <= w.last + n
    ensures Tracking(Place(w, n, a), n, arrivals + [a])
  {
    WithinOneFile(w, n, a);
    if FileOf(w.first.value, n, a.num) == w.id - 1 {
      LatePacketFindsItsFile(w, n, arrivals, a);
    }
    assert a.num != w.last;
    PlaceAdvancesNewest(w, n, a);
    assert (arrivals + [a])[..|arrivals|] == arrivals;
    NewlyPlaced(w, n, a);
    forall x | x in arrivals
      ensures Placed(Place(w, n, a), n, x)
    {
      PlaceKeepsOthers(w, n, a, x);
    }
  }

  lemma FirstArrivalTracks(n: nat, arrivals: seq<Arrival>)
    requires n > 0 && |arrivals| == 1
    ensures Tracking(Run(n, arrivals), n, arrivals)
  {
    assert Run(n, arrivals[..0]) == START;
    HomeIsUnique(arrivals[0].num, n, arrivals[0].num, 0, 0);
  }

  lemma PrefixInBounds(n: nat, arrivals: seq<Arrival>, t: nat, u: nat)
    requires 1 <= u < t <= |arrivals|
    ensures InBounds(n, arrivals[..t], u) <==> InBounds(n, arrivals, u)
  {
    assert arrivals[..t][..u] == arrivals[..u];
  }

  /** The beginning of an orderly stream is orderly. */
  lemma OrderlyPrefix(n: nat, arrivals: seq<Arrival>, t: nat)
    requires t <= |arrivals| && Orderly(n, arrivals)
    ensures Orderly(n, arrivals[..t])
  {
    forall u | 1 <= u < |arrivals[..t]|
      ensures InBounds(n, arrivals[..t], u)
    {
      PrefixInBounds(n, arrivals, t, u);
      assert InBounds(n, arrivals, u);
    }
  }

  lemma NoRepeatsPrefix(arrivals: seq<Arrival>, t: nat)
    requires t <= |arrivals| && NoRepeats(arrivals)
    ensures NoRepeats(arrivals[..t])
  {
  }

  lemma SwitchTracks(w: Win, n: nat, arrivals: seq<Arrival>)
    requires n > 0 && arrivals != [] && Inv(w, n) && !Aborted(w, n) && Faithful(w, arrivals) && Tracking(w, n, arrivals)
    ensures var w' := Switch(w, n);
      Ready(w', n) && Faithful(w', arrivals) && Tracking(w', n, arrivals)
  {
    SwitchInv(w, n);
    AdvanceFaithful(w, n, arrivals);
    AdvanceTracks(w, n, arrivals);
  }

  lemma OrderlyStep(n: nat, arrivals: seq<Arrival>)
    requires n > 0 && |arrivals| > 1 && NoRepeats(arrivals) && Orderly(n, arrivals)
    requires Tracking(Run(n, arrivals[..|arrivals| - 1]), n, arrivals[..|arrivals| - 1])
    ensures Tracking(Run(n, arrivals), n, arrivals)
  {
    var init, a := arrivals[..|arrivals| - 1], arrivals[|arrivals| - 1];
    assert init + [a] == arrivals;
    assert InBounds(n, arrivals, |init|);
    RunIsFaithful(n, init);
    RunKeepsInv(n, init);
    RunExtends(n, init, a);
    SwitchTracks(Run(n, init), n, init);
    PlaceTracks(Switch(Run(n, init), n), n, init, a);
  }

  lemma {:induction false} OrderlyRunTracks(n: nat, arrivals: seq<Arrival>)
    requires n > 0 && arrivals != [] && NoRepeats(arrivals) && Orderly(n, arrivals)
    ensures Tracking(Run(n, arrivals), n, arrivals)
  {
    if |arrivals| == 1 {
      FirstArrivalTracks(n, arrivals);
    } else {
      OrderlyPrefix(n, arrivals, |arrivals| - 1);
      OrderlyRunTracks(n, arrivals[..|arrivals| - 1]);
      OrderlyStep(n, arrivals);
    }
  }

  /** What holds in the state in which reception stops. */
  lemma StoppedTracks(n: nat, arrivals: seq<Arrival>, waiting: bool)
    requires n > 0 && arrivals != [] && NoRepeats(arrivals) && Orderly(n, arrivals)
    ensures var w := Stopped(n, arrivals, waiting);
      Inv(w, n) && !Aborted(w, n) && Faithful(w, arrivals) && Tracking(w, n, arrivals)
  {
    OrderlyRunTracks(n, arrivals);
    RunIsFaithful(n, arrivals);
    RunKeepsInv(n, arrivals);
    SwitchTracks(Run(n, arrivals), n, arrivals);
  }

  predicate HandedOut(h: seq<Handed>, first: int, n: nat, a: Arrival)
    requires n > 0
  {
    var f, k := FileOf(first, n, a.num), SlotOf(first, n, a.num);
    0 <= f < |h| && h[f].id == f && InSlot(h[f].file, k, a)
  }

  lemma PlacedIsHandedOut(w: Win, n: nat, a: Arrival)
    requires n > 0 && Inv(w, n) && w.first.Some? && w.cur.count == |w.cur.slots| && Placed(w, n, a)
    ensures HandedOut(Finish(w, n).handed, w.first.value, n, a)
  {
  }

  lemma TrackedIsHandedOut(w: Win, n: nat, arrivals: seq<Arrival>)
    requires n > 0 && arrivals != [] && Inv(w, n) && Faithful(w, arrivals) && Tracking(w, n, arrivals)
    ensures forall a :: a in arrivals ==> HandedOut(Finish(w, n).handed, arrivals[0].num, n, a)
  {
    forall a | a in arrivals
      ensures HandedOut(Finish(w, n).handed, arrivals[0].num, n, a)
    {
      PlacedIsHandedOut(w, n, a);
    }
  }

  lemma StoppedAccounts(n: nat, arrivals: seq<Arrival>, waiting: bool)
    requires n > 0
    ensures Unexplained(Stopped(n, arrivals, waiting), n) == 0
  {
    RunAccounts(n, arrivals);
    if waiting {
      AdvanceAccounts(Run(n, arrivals), n);
    }
  }

  /** The point of the resequencer. If no number repeats and disorder stays within one file, then no
      packet is dropped and every packet that arrived is in the file and the slot its number demands
      among the files handed over, however the arrivals were shuffled. */
  lemma BoundedDisorderLosesNothing(n: nat, arrivals: seq<Arrival>, waiting: bool)
    requires n > 0 && arrivals != [] && NoRepeats(arrivals) && Orderly(n, arrivals)
    ensures var w := Stopped(n, arrivals, waiting);
      && !Aborted(w, n) && w.lost == 0 && w.missing == HolesHanded(w.handed, n)
      && forall a :: a in arrivals ==> HandedOut(Finish(w, n).handed, arrivals[0].num, n, a)
  {
    StoppedTracks(n, arrivals, waiting);
    StoppedAccounts(n, arrivals, waiting);
    TrackedIsHandedOut(Stopped(n, arrivals, waiting), n, arrivals);
  }
}
