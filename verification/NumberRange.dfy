/** Packet numbers are read into signed integers of the width of the field. A stream that counts on past the
    largest of them comes back with numbers below its first one. */
module NumberRange {
  import opened Bytes
  import opened Headers
  import opened LastFile
  import opened Options
  import opened Window
  import opened WindowProofs

  /** The number a field of m values shows for the integer. */
  function Shown(m: nat, num: int): int
    requires m > 0
  {
    Signed(num % m, m)
  }

  /** A stream without loss or reordering, as its numbers are read. */
  ghost predicate CountsUp(m: nat, arrivals: seq<Arrival>)
    requires m > 0
  {
    forall t :: 0 <= t < |arrivals| ==> arrivals[t].num == Shown(m, arrivals[0].num + t)
  }

  /** The first number is one that can be shown, and no more packets come than numbers can be told apart. */
  predicate Fits(m: nat, arrivals: seq<Arrival>) {
    && m > 0 && m % 2 == 0 && arrivals != []
    && 0 <= 2 * arrivals[0].num + m < 2 * m && |arrivals| <= m
  }

  lemma ShownIs(m: nat, num: int)
    requires m > 0 && 0 <= 2 * num + m < 4 * m
    ensures Shown(m, num) == if 2 * num < m then num else num - m
  {
    RemainderUnique(num, m, if num < 0 then -1 else if num < m then 0 else 1,
                    if num < 0 then num + m else if num < m then num else num - m);
  }

  lemma NumberAt(m: nat, arrivals: seq<Arrival>, t: nat)
    requires Fits(m, arrivals) && CountsUp(m, arrivals) && t < |arrivals|
    ensures var num := arrivals[0].num + t;
      arrivals[t].num == if 2 * num < m then num else num - m
  {
    ShownIs(m, arrivals[0].num + t);
  }

  lemma CountingRepeatsNothing(m: nat, arrivals: seq<Arrival>)
    requires Fits(m, arrivals) && CountsUp(m, arrivals)
    ensures NoRepeats(arrivals)
  {
    forall i, j | 0 <= i < j < |arrivals|
      ensures arrivals[i].num != arrivals[j].num
    {
      NumberAt(m, arrivals, i);
      NumberAt(m, arrivals, j);
    }
  }

  /** The numbers are consecutive. */
  ghost predicate Consecutive(arrivals: seq<Arrival>) {
    forall t :: 0 <= t < |arrivals| ==> arrivals[t].num == arrivals[0].num + t
  }

  lemma ConsecutiveInRange(m: nat, arrivals: seq<Arrival>)
    requires Fits(m, arrivals) && CountsUp(m, arrivals) && 2 * (arrivals[0].num + |arrivals|) <= m
    ensures Consecutive(arrivals)
  {
    forall t | 0 <= t < |arrivals|
      ensures arrivals[t].num == arrivals[0].num + t
    {
      NumberAt(m, arrivals, t);
    }
  }

  lemma {:induction false} NewestIsLast(arrivals: seq<Arrival>)
    requires arrivals != [] && Consecutive(arrivals)
    ensures Newest(arrivals) == arrivals[0].num + |arrivals| - 1
  {
    if |arrivals| > 1 {
      NewestIsLast(arrivals[..|arrivals| - 1]);
    }
  }

  lemma ConsecutiveIsOrderly(n: nat, arrivals: seq<Arrival>)
    requires n > 0 && Consecutive(arrivals)
    ensures Orderly(n, arrivals)
  {
    forall t | 1 <= t < |arrivals|
      ensures InBounds(n, arrivals, t)
    {
      NewestIsLast(arrivals[..t]);
    }
  }

  lemma ConsecutiveHasNoGap(n: nat, arrivals: seq<Arrival>, waiting: bool)
    requires n > 0 && arrivals != [] && Consecutive(arrivals)
    ensures NoGapAtTheEnd(n, arrivals, waiting)
  {
    var first, last := arrivals[0].num, |arrivals| - 1;
    var base := Base(first, n, LastOpen(n, arrivals, waiting));
    NewestIsLast(arrivals);
    NoFileBeforeTheFirst(first, n, first + last);
    NoFileBeforeTheFirst(first, n, first + last + 1);
    BaseNotBefore(first, n, LastOpen(n, arrivals, waiting));
    forall num | base <= num <= first + last
      ensures Has(arrivals, num)
    {
      assert arrivals[num - first].num == num;
    }
  }

  lemma BaseNotBefore(first: int, n: nat, f: int)
    requires n > 0 && f >= 0
    ensures Base(first, n, f) >= first
  {
    if f > 0 {
      BaseGrows(first, n, 0, f);
    }
  }

  /** A packet older than the first one is dropped. */
  lemma OlderThanFirstIsLost(w: Win, n: nat, a: Arrival)
    requires n > 0 && Ready(w, n) && w.first.Some? && a.num < w.first.value <= w.last
    ensures Place(w, n, a) == Lose(w)
  {
    Home(w.first.value, n, a.num);
    if FileOf(w.first.value, n, a.num) >= 0 {
      BaseNotBefore(w.first.value, n, FileOf(w.first.value, n, a.num));
    }
  }

  /** The window after k packets were dropped. */
  function Dropped(w: Win, k: nat): Win {
    w.(lost := w.lost + k, missing := w.missing + k)
  }

  lemma OneMoreDropped(w: Win, n: nat, k: nat, a: Arrival)
    requires n > 0 && Ready(w, n) && w.first.Some? && a.num < w.first.value <= w.last
    ensures !Aborted(Dropped(w, k), n) && Step(Dropped(w, k), n, a) == Dropped(w, k + 1)
  {
    OlderThanFirstIsLost(Dropped(w, k), n, a);
  }

  /** If from packet t on all are older than the first, each of them is dropped and nothing else happens, except
      that a file that was passed is left. */
  lemma {:induction false} TailIsDropped(n: nat, arrivals: seq<Arrival>, t: nat, w: Win)
    requires n > 0 && t < |arrivals| && !Aborted(Run(n, arrivals[..t]), n) && w == Switch(Run(n, arrivals[..t]), n)
    requires Ready(w, n) && w.first.Some? && w.first.value <= w.last
    requires forall u :: t <= u < |arrivals| ==> arrivals[u].num < w.first.value
    ensures Run(n, arrivals) == Dropped(w, |arrivals| - t)
  {
    var last := |arrivals| - 1;
    var init, a := arrivals[..last], arrivals[last];
    assert arrivals == init + [a];
    if t == last {
      RunExtends(n, init, a);
      OlderThanFirstIsLost(w, n, a);
    } else {
      assert init[..t] == arrivals[..t];
      TailIsDropped(n, init, t, w);
      OneMoreDropped(w, n, last - t, a);
      RunExtends(n, init, a);
    }
  }

  /** How many packets of a stream that counts up can be told from older ones. */
  function Room(m: nat, arrivals: seq<Arrival>): (t: int)
    requires Fits(m, arrivals)
    ensures t > 0 && 2 * (arrivals[0].num + t) == m
  {
    m / 2 - arrivals[0].num
  }

  lemma TailIsOlder(m: nat, arrivals: seq<Arrival>)
    requires Fits(m, arrivals) && CountsUp(m, arrivals)
    ensures forall u :: 0 <= u < |arrivals| ==> (arrivals[u].num < arrivals[0].num <==> u >= Room(m, arrivals))
  {
    forall u | 0 <= u < |arrivals|
      ensures arrivals[u].num < arrivals[0].num <==> u >= Room(m, arrivals)
    {
      NumberAt(m, arrivals, u);
    }
  }

  lemma CountsUpPrefix(m: nat, arrivals: seq<Arrival>, t: nat)
    requires Fits(m, arrivals) && CountsUp(m, arrivals) && 0 < t <= |arrivals|
    ensures Fits(m, arrivals[..t]) && CountsUp(m, arrivals[..t])
  {
  }

  /** The packets in range, as a stream of their own. */
  lemma PrefixInRange(m: nat, arrivals: seq<Arrival>, t: nat)
    requires Fits(m, arrivals) && CountsUp(m, arrivals) && t == Room(m, arrivals) <= |arrivals|
    ensures Consecutive(arrivals[..t]) && NoRepeats(arrivals[..t]) && arrivals[..t][0] == arrivals[0]
  {
    CountsUpPrefix(m, arrivals, t);
    ConsecutiveInRange(m, arrivals[..t]);
    CountingRepeatsNothing(m, arrivals[..t]);
  }

  /** The state before the first packet out of range is placed. */
  lemma BeforeTheTail(n: nat, init: seq<Arrival>)
    requires n > 0 && init != [] && Consecutive(init) && NoRepeats(init)
    ensures var w := Switch(Run(n, init), n);
      && !Aborted(Run(n, init), n) && Ready(w, n) && w.lost == 0
      && w.first == Some(init[0].num) && init[0].num <= w.last
  {
    ConsecutiveIsOrderly(n, init);
    FileIndex.ReadyAndTracking(n, init);
    NewestIsLast(init);
  }

  lemma BeyondRangeIsDropped(m: nat, n: nat, arrivals: seq<Arrival>, t: nat)
    requires n > 0 && Fits(m, arrivals) && CountsUp(m, arrivals) && t == Room(m, arrivals) < |arrivals|
    ensures Run(n, arrivals) == Dropped(Switch(Run(n, arrivals[..t]), n), |arrivals| - t)
    ensures Run(n, arrivals).lost == |arrivals| - t
  {
    PrefixInRange(m, arrivals, t);
    BeforeTheTail(n, arrivals[..t]);
    TailIsOlder(m, arrivals);
    TailIsDropped(n, arrivals, t, Switch(Run(n, arrivals[..t]), n));
  }

  /** A stream that counts up from its first number, in order and without loss, loses exactly the packets that come
      after the largest number of the field: those from t on, where the first number plus t is one more than
      that. */
  lemma LostIsBeyondRange(m: nat, n: nat, arrivals: seq<Arrival>)
    requires n > 0 && Fits(m, arrivals) && CountsUp(m, arrivals)
    ensures Run(n, arrivals).lost == if |arrivals| <= Room(m, arrivals) then 0 else |arrivals| - Room(m, arrivals)
  {
    if |arrivals| <= Room(m, arrivals) {
      ConsecutiveInRange(m, arrivals);
      CountingRepeatsNothing(m, arrivals);
      ConsecutiveIsOrderly(n, arrivals);
      BoundedDisorderLosesNothing(n, arrivals, false);
    } else {
      BeyondRangeIsDropped(m, n, arrivals, Room(m, arrivals));
    }
  }
}
