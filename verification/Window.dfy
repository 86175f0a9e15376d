/** What resequencing means, without pointers, counters or copies.

    A recording is cut into files of n consecutive packet numbers, counted from the number of the
    first packet that arrived. At any time the current file is open and the one before it may be
    left hanging for late packets; everything older is handed to the writer. */
module Window {
  import Bytes
  import opened Headers
  import opened Options

  datatype Arrival = Arrival(num: int, packet: Packet)

  /** How many packets were accepted, and the packet last stored in each slot. */
  datatype File = File(count: nat, slots: map<nat, Arrival>)

  /** A file given to the writer with the number of packets the writer is told to write. */
  datatype Handed = Handed(id: int, written: nat, file: File)

  datatype Win = Win(
    first: Option<int>,     // the number of the first packet
    last: int,              // the number the window has advanced to
    id: nat,                // the current file
    cur: File,
    before: Option<File>,   // file id - 1, while it waits for late packets
    handed: seq<Handed>,
    missing: int,           // the statistics counter
    lost: nat,              // packets dropped because they belong to no open file
    repeated: nat)          // packets ignored because they repeat the latest number

  const EMPTY := File(0, map[])
  const START := Win(None, 0, 0, EMPTY, None, [], 0, 0, 0)

  function Base(first: int, n: nat, id: int): int {
    first + n * id
  }

  function FileOf(first: int, n: nat, num: int): int
    requires n > 0
  {
    (num - first) / n
  }

  function SlotOf(first: int, n: nat, num: int): (k: nat)
    requires n > 0
    ensures k < n
  {
    (num - first) % n
  }

  function Put(f: File, k: nat, a: Arrival): File {
    File(f.count + 1, f.slots[k := a])
  }

  /** A file still hanging is given up: it is handed over and its holes are counted as missing. */
  function GiveUp(w: Win, n: nat): Win {
    if w.before.None? then w else
      w.(handed := w.handed + [Handed(w.id - 1, n, w.before.value)],
         missing := w.missing + (n - w.before.value.count),
         before := None)
  }

  /** The current file is handed over if it is complete and left hanging otherwise. */
  function Leave(w: Win, n: nat): Win {
    var w' := if w.cur.count == n
              then w.(handed := w.handed + [Handed(w.id, n, w.cur)], before := None)
              else w.(before := Some(w.cur));
    w'.(id := w.id + 1, cur := EMPTY)
  }

  /** Opens the next file. */
  function Advance(w: Win, n: nat): Win {
    Leave(GiveUp(w, n), n)
  }

  /** The window has advanced to the last number of the current file. */
  predicate IsPassed(w: Win, n: nat) {
    w.first.Some? && w.last == Base(w.first.value, n, w.id) + n - 1
  }

  /** Before a packet is received, a file whose last number has passed is left. */
  function Switch(w: Win, n: nat): Win {
    if IsPassed(w, n) then Advance(w, n) else w
  }

  function PutHere(w: Win, k: nat, a: Arrival): Win {
    w.(cur := Put(w.cur, k, a), last := if w.last < a.num then a.num else w.last)
  }

  function PutAhead(w: Win, n: nat, k: nat, a: Arrival): Win {
    var w' := Advance(w, n);
    w'.(cur := Put(w'.cur, k, a), last := a.num)
  }

  /** A file left hanging is handed over once it is complete. */
  function PutBefore(w: Win, n: nat, k: nat, a: Arrival): Win
    requires w.before.Some?
  {
    var b := Put(w.before.value, k, a);
    if b.count == n
    then w.(handed := w.handed + [Handed(w.id - 1, n, b)], before := None)
    else w.(before := Some(b))
  }

  function Lose(w: Win): Win {
    w.(missing := w.missing + 1, lost := w.lost + 1)
  }

  /** Where one packet goes. */
  function Place(w: Win, n: nat, a: Arrival): Win
    requires n > 0
  {
    if w.first.None? then
      w.(first := Some(a.num), last := a.num, cur := Put(w.cur, 0, a))
    else if a.num == w.last then
      w.(repeated := w.repeated + 1)
    else
      var f, k := FileOf(w.first.value, n, a.num), SlotOf(w.first.value, n, a.num);
      if f == w.id then PutHere(w, k, a)
      else if f == w.id + 1 then PutAhead(w, n, k, a)
      else if f == w.id - 1 && w.before.Some? then PutBefore(w, n, k, a)
      else Lose(w)
  }

  function Step(w: Win, n: nat, a: Arrival): Win
    requires n > 0
  {
    Place(Switch(w, n), n, a)
  }

  /** More packets accepted than the buffer holds: the streamer's own assertion stops it. */
  predicate Aborted(w: Win, n: nat) {
    w.cur.count > n
  }

  function Run(n: nat, arrivals: seq<Arrival>): Win
    requires n > 0
  {
    if arrivals == [] then START else
      var w := Run(n, arrivals[..|arrivals| - 1]);
      if Aborted(w, n) then w else Step(w, n, arrivals[|arrivals| - 1])
  }

  /** The state in which reception ends. Stopped while it waits for another packet, the streamer has
      already left a file that was passed. */
  function Stopped(n: nat, arrivals: seq<Arrival>, waiting: bool): Win
    requires n > 0
  {
    if waiting then Switch(Run(n, arrivals), n) else Run(n, arrivals)
  }

  /** End of reception: what is open goes to the writer, except a current file with nothing in it. */
  function Finish(w: Win, n: nat): Win {
    var w1 := if w.before.None? then w else
      w.(handed := w.handed + [Handed(w.id - 1, n, w.before.value)], before := None);
    if w1.cur.count == 0 then w1 else
      w1.(handed := w1.handed + [Handed(w1.id, w1.cur.count, w1.cur)], id := w1.id + 1, cur := EMPTY)
  }

  // ---------- Numbers, files and slots ----------

  lemma Home(first: int, n: nat, num: int)
    requires n > 0
    ensures num == Base(first, n, FileOf(first, n, num)) + SlotOf(first, n, num)
  {
  }

  lemma HomeIsUnique(first: int, n: nat, num: int, f: int, k: nat)
    requires n > 0 && k < n && num == Base(first, n, f) + k
    ensures FileOf(first, n, num) == f && SlotOf(first, n, num) == k
  {
    Bytes.RemainderUnique(num - first, n, f, k);
  }

  lemma NextBase(first: int, n: nat, id: int)
    ensures Base(first, n, id + 1) == Base(first, n, id) + n
  {
  }

  lemma BaseGrows(first: int, n: nat, f: int, g: int)
    requires n > 0 && f < g
    ensures Base(first, n, f) + n <= Base(first, n, g)
  {
    Bytes.AtLeastOnce(g - f, n);
    assert (g - f) * n == n * g - n * f;
  }

  /** Where a packet goes, told from the numbers alone: `base` is the first number of the current file. It is ignored
      if it repeats the newest; it is stored in the file its number is of, if that is the current one, the next, or
      the one before and that is still waited for; and it is lost otherwise. */
  lemma WhereItGoes(w: Win, n: nat, a: Arrival, base: int)
    requires n > 0 && w.first.Some? && base == w.first.value + n * w.id
    ensures var w' := Place(w, n, a);
      if a.num == w.last then w' == w.(repeated := w.repeated + 1)
      else if base <= a.num < base + n then
        && w'.id == w.id && InSlot(w'.cur, a.num - base, a) && w'.cur.count == w.cur.count + 1
      else if base + n <= a.num < base + 2 * n then
        && w'.id == w.id + 1 && InSlot(w'.cur, a.num - base - n, a) && w'.cur.count == 1 && w'.last == a.num
      else if base - n <= a.num < base && w.before.Some? then
        && w'.id == w.id && w'.cur == w.cur
        && (if w.before.value.count + 1 != n then w'.before.Some? && InSlot(w'.before.value, a.num - base + n, a)
            else w'.before.None? && w'.handed != []
                 && InSlot(w'.handed[|w'.handed| - 1].file, a.num - base + n, a))
      else w' == w.(missing := w.missing + 1, lost := w.lost + 1)
  {
    var first := w.first.value;
    NextBase(first, n, w.id);
    NextBase(first, n, w.id - 1);
    if base <= a.num < base + n {
      HomeIsUnique(first, n, a.num, w.id, a.num - base);
    } else if base + n <= a.num < base + 2 * n {
      HomeIsUnique(first, n, a.num, w.id + 1, a.num - base - n);
    } else if base - n <= a.num < base {
      HomeIsUnique(first, n, a.num, w.id - 1, a.num - base + n);
    } else {
      Home(first, n, a.num);
    }
  }

  predicate InSlot(f: File, k: int, a: Arrival) {
    k >= 0 && k in f.slots && f.slots[k] == a
  }
}
