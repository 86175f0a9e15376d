/** Reading a stretch of a recording that is spread over many files of the same size. */
module ReadSplit {
  import opened Bytes

  type File = seq<byte>

  /** The first j files, one after the other. */
  function FlatTo(files: seq<File>, j: nat): seq<byte>
    requires j <= |files|
  {
    if j == 0 then [] else FlatTo(files, j - 1) + files[j - 1]
  }

  function Flat(files: seq<File>): seq<byte> {
    FlatTo(files, |files|)
  }

  /** Every file but the last is full. */
  predicate Recording(files: seq<File>, full: nat) {
    && full > 0
    && (forall j :: 0 <= j < |files| - 1 ==> |files[j]| == full)
    && (files != [] ==> 0 < |files[|files| - 1]| <= full)
  }

  /** One reading thread: how many bytes of which file, from where. */
  datatype Segment = Segment(file: nat, from: nat, amount: nat)

  /** How much of `size` bytes lies in the file they start in. */
  function Amount(full: nat, from: nat, size: nat): (amount: nat)
    requires from <= full
    ensures amount <= size && from + amount <= full
  {
    if from + size > full then full - from else size
  }

  /** What the split hands out: `count` segments from this position on, for `size` bytes. */
  function Split(full: nat, file: nat, from: nat, size: nat, count: nat): (r: seq<Segment>)
    requires from <= full
    ensures |r| == count
    decreases count
  {
    if count == 0 then [] else
      var amount := Amount(full, from, size);
      [Segment(file, from, amount)] + Split(full, file + 1, 0, size - amount, count - 1)
  }

  /** How many files are opened for a request that starts `from` bytes into one. */
  function FilesOpen(full: nat, from: nat, size: nat): nat
    requires full > 0 && from <= full
  {
    size / full + (if full - from < size % full then 1 else 0) + 1
  }

  function Total(segments: seq<Segment>): nat {
    if segments == [] then 0 else segments[0].amount + Total(segments[1..])
  }

  /** What the threads put into the request's buffer, one behind the other. */
  function Gathered(files: seq<File>, segments: seq<Segment>): (r: seq<byte>)
    requires forall i :: 0 <= i < |segments| ==> Inside(files, segments[i])
  {
    if segments == [] then [] else
      var s := segments[0];
      assert Inside(files, segments[0]);
      (if s.amount == 0 then [] else files[s.file][s.from..s.from + s.amount]) + Gathered(files, segments[1..])
  }

  /** The segment lies in its file; one for nothing may name a file behind the last. */
  predicate Inside(files: seq<File>, s: Segment) {
    s.amount > 0 ==> s.file < |files| && s.from + s.amount <= |files[s.file]|
  }

  // ---------- Positions ----------

  /** Where a file starts in the recording. */
  function FileAt(file: nat, full: nat): nat {
    if file == 0 then 0 else FileAt(file - 1, full) + full
  }

  lemma {:induction false} FileAtIs(file: nat, full: nat)
    ensures FileAt(file, full) == file * full
  {
    if file > 0 {
      FileAtIs(file - 1, full);
    }
  }

  lemma {:induction false} FileAtGrows(a: nat, b: nat, full: nat)
    ensures a < b ==> FileAt(a, full) + full <= FileAt(b, full)
  {
    if a + 1 < b {
      FileAtGrows(a, b - 1, full);
    }
  }

  lemma {:induction false} FlatStart(files: seq<File>, full: nat, j: nat)
    requires Recording(files, full) && j < |files|
    ensures |FlatTo(files, j)| == FileAt(j, full)
  {
    if j > 0 {
      FlatStart(files, full, j - 1);
    }
  }

  lemma FlatLength(files: seq<File>, full: nat)
    requires Recording(files, full) && files != []
    ensures |Flat(files)| == FileAt(|files| - 1, full) + |files[|files| - 1]|
  {
    FlatStart(files, full, |files| - 1);
  }

  lemma {:induction false} FlatPrefix(files: seq<File>, j: nat, k: nat)
    requires j <= k <= |files|
    ensures FlatTo(files, j) <= FlatTo(files, k)
  {
    if j < k {
      FlatPrefix(files, j, k - 1);
    }
  }

  lemma PrefixSlice(a: seq<byte>, b: seq<byte>, all: seq<byte>, from: nat, amount: nat, at: nat)
    requires a + b <= all && from + amount <= |b| && at == |a| + from
    ensures at + amount <= |all| && all[at..at + amount] == b[from..from + amount]
  {
    assert all[..|a + b|] == a + b;
    assert (a + b)[at..at + amount] == b[from..from + amount];
  }

  /** The bytes of a file are where its position in the recording says. */
  lemma FlatSlice(files: seq<File>, full: nat, j: nat, from: nat, amount: nat, at: nat)
    requires Recording(files, full) && j < |files| && from + amount <= |files[j]| && at == FileAt(j, full) + from
    ensures at + amount <= |Flat(files)| && Flat(files)[at..at + amount] == files[j][from..from + amount]
  {
    FlatStart(files, full, j);
    FlatPrefix(files, j + 1, |files|);
    PrefixSlice(FlatTo(files, j), files[j], Flat(files), from, amount, at);
  }

  /** A stretch of at most one file, inside the recording, lies inside that file. */
  lemma StretchIsInside(files: seq<File>, full: nat, file: nat, from: nat, amount: nat)
    requires Recording(files, full) && files != [] && from + amount <= full && amount > 0
    requires FileAt(file, full) + from + amount <= |Flat(files)|
    ensures file < |files| && from + amount <= |files[file]|
  {
    FlatLength(files, full);
    FileAtGrows(|files| - 1, file, full);
  }

  // ---------- The split ----------

  /** How far `count` files reach from this position on. */
  function Reach(full: nat, from: nat, count: nat): nat
    requires from <= full
    decreases count
  {
    if count == 0 then 0 else full - from + Reach(full, 0, count - 1)
  }

  lemma {:induction false} SplitNothing(files: seq<File>, full: nat, file: nat, from: nat, count: nat)
    requires from <= full
    ensures var segments := Split(full, file, from, 0, count);
      && (forall i :: 0 <= i < count ==> Inside(files, segments[i])) && Total(segments) == 0
      && Gathered(files, segments) == []
    decreases count
  {
    if count > 0 {
      SplitNothing(files, full, file + 1, 0, count - 1);
      var rest := Split(full, file + 1, 0, 0, count - 1);
      assert Split(full, file, from, 0, count)[1..] == rest;
      assert Split(full, file, from, 0, count) == [Segment(file, from, 0)] + rest;
    }
  }

  lemma GatherOneMore(files: seq<File>, s: Segment, rest: seq<Segment>, all: seq<Segment>)
    requires Inside(files, s) && forall i :: 0 <= i < |rest| ==> Inside(files, rest[i])
    requires all == [s] + rest
    ensures forall i :: 0 <= i < |all| ==> Inside(files, all[i])
    ensures Total(all) == s.amount + Total(rest)
    ensures Gathered(files, all)
         == (if s.amount == 0 then [] else files[s.file][s.from..s.from + s.amount]) + Gathered(files, rest)
  {
    assert all[1..] == rest;
  }

  ghost predicate Covers(files: seq<File>, segments: seq<Segment>, at: nat, size: nat)
    requires at + size <= |Flat(files)|
  {
    && (forall i :: 0 <= i < |segments| ==> Inside(files, segments[i]))
    && Total(segments) == size && Gathered(files, segments) == Flat(files)[at..at + size]
  }

  /** The segment's bytes are those of the recording from `at` on. */
  ghost predicate InPlace(files: seq<File>, s: Segment, at: nat) {
    && s.amount > 0 && Inside(files, s) && at + s.amount <= |Flat(files)|
    && files[s.file][s.from..s.from + s.amount] == Flat(files)[at..at + s.amount]
  }

  lemma CoversOneMore(files: seq<File>, s: Segment, rest: seq<Segment>, at: nat, size: nat, next: nat, left: nat,
                      all: seq<Segment>)
    requires next == at + s.amount && at + size <= |Flat(files)| && s.amount + left == size
    requires InPlace(files, s, at) && all == [s] + rest && Covers(files, rest, next, left)
    ensures Covers(files, all, at, size)
  {
    GatherOneMore(files, s, rest, all);
    Joined(Flat(files), at, s.amount, size);
  }

  /** The first segment holds what lies in the first file; `at` is where it starts in the recording. */
  lemma FirstSegment(files: seq<File>, full: nat, file: nat, from: nat, at: nat, amount: nat)
    requires Recording(files, full) && files != [] && at == FileAt(file, full) + from
    requires from + amount <= full && amount > 0
    requires at + amount <= |Flat(files)|
    ensures InPlace(files, Segment(file, from, amount), at)
    ensures from + amount == full ==> at + amount == FileAt(file + 1, full)
  {
    StretchIsInside(files, full, file, from, amount);
    FlatSlice(files, full, file, from, amount, at);
  }

  lemma CoversNothing(files: seq<File>, full: nat, file: nat, from: nat, at: nat, size: nat, count: nat)
    requires from <= full && at <= |Flat(files)| && size == 0
    ensures Covers(files, Split(full, file, from, size, count), at, size)
  {
    SplitNothing(files, full, file, from, count);
  }

  /** While the request lies inside the recording, every segment lies inside its file, and together they are
      the stretch of the recording that was asked for. */
  lemma {:induction false} SplitIsSlice(files: seq<File>, full: nat, file: nat, from: nat, at: nat, size: nat,
                                        count: nat)
    requires Recording(files, full) && files != [] && from < full && (size > 0 ==> at == FileAt(file, full) + from)
    requires at + size <= |Flat(files)| && size <= Reach(full, from, count)
    ensures Covers(files, Split(full, file, from, size, count), at, size)
    decreases count
  {
    if size == 0 {
      CoversNothing(files, full, file, from, at, size, count);
    } else {
      var amount := Amount(full, from, size);
      FirstSegment(files, full, file, from, at, amount);
      SplitIsSlice(files, full, file + 1, 0, at + amount, size - amount, count - 1);
      CoversOneMore(files, Segment(file, from, amount), Split(full, file + 1, 0, size - amount, count - 1), at, size,
                    at + amount, size - amount, Split(full, file, from, size, count));
    }
  }

  lemma Joined(s: seq<byte>, at: nat, amount: nat, size: nat)
    requires amount <= size && at + size <= |s|
    ensures s[at..at + amount] + s[at + amount..at + size] == s[at..at + size]
  {
  }

  lemma NextFile(file: nat, full: nat)
    ensures (file + 1) * full == file * full + full
  {
  }

  lemma {:induction false} ReachIs(full: nat, from: nat, count: nat)
    requires from <= full
    ensures count > 0 ==> Reach(full, from, count) == count * full - from
    decreases count
  {
    if count > 1 {
      ReachIs(full, 0, count - 1);
    }
    if count > 0 {
      NextFile(count - 1, full);
    }
  }

  /** The number of files opened is enough, and one too many exactly when whole files are asked for from the
      start of one. */
  lemma FilesOpenIsRight(full: nat, from: nat, size: nat)
    requires full > 0 && from < full && size > 0
    ensures size <= Reach(full, from, FilesOpen(full, from, size))
    ensures size <= Reach(full, from, FilesOpen(full, from, size) - 1) <==> from == 0 && size % full == 0
  {
    var n, q := FilesOpen(full, from, size), size / full;
    ReachIs(full, from, n);
    ReachIs(full, from, n - 1);
    NextFile(q, full);
    NextFile(q + 1, full);
    assert size == q * full + size % full;
  }

  /** The file a byte of the recording is in, and where in that file. */
  function FileOf(offset: nat, full: nat): nat
    requires full > 0
  {
    offset / full
  }

  function PlaceIn(offset: nat, full: nat): (from: nat)
    requires full > 0
    ensures from < full
  {
    offset % full
  }

  lemma OffsetIs(offset: nat, full: nat)
    requires full > 0
    ensures offset == FileAt(FileOf(offset, full), full) + PlaceIn(offset, full)
  {
    FileAtIs(offset / full, full);
  }

  lemma RequestAt(files: seq<File>, full: nat, file: nat, from: nat, offset: nat, n: nat)
    requires Recording(files, full) && files != [] && offset + n <= |Flat(files)|
    requires from < full && offset == FileAt(file, full) + from
    ensures Covers(files, Split(full, file, from, n, FilesOpen(full, from, n)), offset, n)
  {
    if n > 0 {
      FilesOpenIsRight(full, from, n);
    }
    SplitIsSlice(files, full, file, from, offset, n, FilesOpen(full, from, n));
  }

  /** A whole request: the file it starts in and the number of files opened are right. */
  lemma RequestIsServed(files: seq<File>, full: nat, offset: nat, n: nat)
    requires Recording(files, full) && files != [] && offset + n <= |Flat(files)|
    ensures Covers(files, Split(full, FileOf(offset, full), PlaceIn(offset, full), n,
                                FilesOpen(full, PlaceIn(offset, full), n)), offset, n)
  {
    OffsetIs(offset, full);
    RequestAt(files, full, FileOf(offset, full), PlaceIn(offset, full), offset, n);
  }

  // ---------- Files that do not exist ----------

  lemma {:induction false} SplitNames(full: nat, file: nat, from: nat, size: nat, count: nat, i: nat)
    requires from <= full && i < count
    ensures Split(full, file, from, size, count)[i].file == file + i
    decreases count
  {
    if i > 0 {
      var amount := Amount(full, from, size);
      SplitNames(full, file + 1, 0, size - amount, count - 1, i - 1);
    }
  }

  /** The last file a request opens, `file` being the one it starts in. */
  function LastOpened(full: nat, file: nat, from: nat, n: nat): nat
    requires full > 0 && from <= full
  {
    file + FilesOpen(full, from, n) - 1
  }

  lemma FileAtSum(a: nat, b: nat, full: nat)
    ensures FileAt(a + b, full) == FileAt(a, full) + FileAt(b, full)
  {
    FileAtIs(a, full);
    FileAtIs(b, full);
    FileAtIs(a + b, full);
  }

  /** Where a request ends, counted in files. */
  lemma EndIs(full: nat, file: nat, from: nat, n: nat, offset: nat)
    requires full > 0 && from < full && offset == FileAt(file, full) + from
    ensures offset + n == FileAt(file + FileOf(n, full), full) + from + PlaceIn(n, full)
  {
    OffsetIs(n, full);
    FileAtSum(file, FileOf(n, full), full);
  }

  /** Both directions, with the request given as the file it starts in, `k` whole files and `m` bytes. */
  lemma BeyondIff(full: nat, count: nat, file: nat, from: nat, k: nat, m: nat, end: nat)
    requires full > 0 && from < full && m < full && end == FileAt(file + k, full) + from + m
    requires end <= FileAt(count, full)
    ensures var last := file + k + if full - from < m then 1 else 0;
      last <= count && (last == count <==> from == 0 && m == 0 && end == FileAt(count, full))
  {
    FileAtGrows(file + k, count, full);
    FileAtGrows(file + k + 1, count, full);
    FileAtGrows(count, file + k, full);
  }

  lemma LastOpenedIff(files: seq<File>, full: nat, offset: nat, n: nat)
    requires Recording(files, full) && offset < |Flat(files)| && offset + n <= |Flat(files)|
    ensures var last := LastOpened(full, FileOf(offset, full), PlaceIn(offset, full), n);
      && last <= |files|
      && (last == |files| <==> offset % full == 0 && n % full == 0 && offset + n == |files| * full)
  {
    FlatLength(files, full);
    FileAtIs(|files|, full);
    OffsetIs(offset, full);
    EndIs(full, FileOf(offset, full), PlaceIn(offset, full), n, offset);
    BeyondIff(full, |files|, FileOf(offset, full), PlaceIn(offset, full), FileOf(n, full), PlaceIn(n, full),
              offset + n);
  }

  /** A request that lies inside a recording opens a file that does not exist if and only if it starts at the
      beginning of a file, asks for whole files, and ends at the end of the last file, which is full; then it
      is the last file it opens, and only that. */
  lemma OpensMissingFileIff(files: seq<File>, full: nat, offset: nat, n: nat, segments: seq<Segment>)
    requires Recording(files, full) && offset < |Flat(files)| && offset + n <= |Flat(files)|
    requires segments == Split(full, FileOf(offset, full), PlaceIn(offset, full), n,
                               FilesOpen(full, PlaceIn(offset, full), n))
    ensures forall i :: 0 <= i < |segments| ==>
      (segments[i].file >= |files|
       <==> i == |segments| - 1 && offset % full == 0 && n % full == 0 && offset + n == |files| * full)
  {
    LastOpenedIff(files, full, offset, n);
    forall i | 0 <= i < |segments|
      ensures segments[i].file == FileOf(offset, full) + i
    {
      SplitNames(full, FileOf(offset, full), PlaceIn(offset, full), n, |segments|, i);
    }
  }

  /** Two files of two bytes, read whole: three files are opened. */
  lemma OpensMissingFile(a: byte, b: byte, c: byte, d: byte)
    ensures var files := [[a, b], [c, d]];
      && Recording(files, 2) && Flat(files) == [a, b, c, d]
      && FilesOpen(2, 0, 4) == 3 && Split(2, 0, 0, 4, 3)[2].file == |files|
  {
    var files: seq<File> := [[a, b], [c, d]];
    assert FlatTo(files, 1) == [a, b];
    SplitNames(2, 0, 0, 4, 3, 2);
  }

  const EOF: int := -1
  const EINVAL: int := 22

  /** The segments still to be set up. */
  ghost predicate Remains(full: nat, file: nat, from: nat, size: nat, count: nat, rest: seq<Segment>) {
    from <= full && forall k: nat :: k == count ==> rest == Split(full, file, from, size, k)
  }

  lemma OneMoreSegment(full: nat, file: nat, from: nat, size: nat, count: nat, rest: seq<Segment>, done: seq<Segment>)
    requires Remains(full, file, from, size, count, rest) && count > 0
    ensures rest != [] && rest[0] == Segment(file, from, Amount(full, from, size)) && rest[0].amount <= size
    ensures Remains(full, file + 1, 0, size - rest[0].amount, count - 1, rest[1..])
    ensures done + rest == done + [rest[0]] + rest[1..]
  {
    assert rest == Split(full, file, from, size, count);
  }

  lemma NothingRemains(full: nat, file: nat, from: nat, size: nat, rest: seq<Segment>, done: seq<Segment>)
    requires Remains(full, file, from, size, 0, rest)
    ensures done + rest == done
  {
    assert rest == Split(full, file, from, size, 0);
  }

  /** The loop that sets up one thread per file. */
  method SetUpThreads(full: nat, filenum: nat, from: nat, size: nat, nFilesOpen: nat) returns (segments: seq<Segment>)
    requires from <= full
    ensures segments == Split(full, filenum, from, size, nFilesOpen)
  {
    segments := [];
    var partialOff, left, i := from, size, 0;
    ghost var rest := Split(full, filenum, from, size, nFilesOpen);
    ghost var all := rest;
    while i < nFilesOpen
      invariant 0 <= i <= nFilesOpen && 0 <= left && 0 <= partialOff
      invariant Remains(full, filenum + i, partialOff, left, nFilesOpen - i, rest) && all == segments + rest
    {
      OneMoreSegment(full, filenum + i, partialOff, left, nFilesOpen - i, rest, segments);
      var amount := if partialOff + left > full then full - partialOff else left;
      segments := segments + [Segment(filenum + i, partialOff, amount)];
      left, partialOff, i := left - amount, 0, i + 1;
      rest := rest[1..];
    }
    NothingRemains(full, filenum + i, partialOff, left, rest, segments);
  }

  method CountFiles(full: nat, partialOff: nat, size: nat) returns (nFilesOpen: nat)
    requires full > 0 && partialOff <= full
    ensures nFilesOpen == FilesOpen(full, partialOff, size)
  {
    nFilesOpen := size / full;
    if full - partialOff < size - nFilesOpen * full {
      nFilesOpen := nFilesOpen + 1;
    }
    nFilesOpen := nFilesOpen + 1;
  }

  /** Reads a stretch that lies inside the recording. */
  method ReadStretch(files: seq<File>, full: nat, offset: nat, n: nat) returns (segments: seq<Segment>, buf: seq<byte>)
    requires Recording(files, full) && files != [] && offset + n <= |Flat(files)|
    ensures buf == Flat(files)[offset..offset + n] && Total(segments) == n
    ensures forall i :: 0 <= i < |segments| ==> Inside(files, segments[i])
  {
    var nFilesOpen := CountFiles(full, PlaceIn(offset, full), n);
    segments := SetUpThreads(full, FileOf(offset, full), PlaceIn(offset, full), n, nFilesOpen);
    RequestIsServed(files, full, offset, n);
    buf := Gathered(files, segments);
  }

  /** Reads `size` bytes of a recording from `offset` on, one thread per file. */
  method VbsRead(files: seq<File>, full: nat, size: nat, offset: nat)
    returns (retval: int, segments: seq<Segment>, buf: seq<byte>)
    requires Recording(files, full)
    ensures offset >= |Flat(files)| ==> retval == -EINVAL && segments == [] && buf == []
    ensures offset < |Flat(files)| ==>
      var n := if offset + size >= |Flat(files)| then |Flat(files)| - offset else size;
      && retval == (if offset + size >= |Flat(files)| then EOF else size)
      && buf == Flat(files)[offset..offset + n] && Total(segments) == n
      && forall i :: 0 <= i < |segments| ==> Inside(files, segments[i])
  {
    var sizeOfRec := |Flat(files)|;
    if offset >= sizeOfRec {
      return -EINVAL, [], [];
    }
    var n := size;
    retval := size;
    if offset + size >= sizeOfRec {
      n := sizeOfRec - offset;
      retval := EOF;
    }
    segments, buf := ReadStretch(files, full, offset, n);
  }

  // ---------- Lengths with and without the stripped bytes ----------

  /** The length on disk of `amount` bytes of stripped packets. */
  function TrueLength(amount: nat, packetSize: nat, offset: nat): nat
    requires offset < packetSize
  {
    amount / (packetSize - offset) * packetSize
    + if amount % (packetSize - offset) > 0 then offset + amount % (packetSize - offset) else 0
  }

  function StrippedLength(amount: nat, packetSize: nat, offset: nat): nat
    requires offset < packetSize
  {
    amount / packetSize * (packetSize - offset)
  }

  /** How many of the first n bytes of whole packets are kept when the first `offset` bytes of each are stripped. */
  function KeptIn(n: nat, packetSize: nat, offset: nat): nat
    requires offset < packetSize
  {
    if n == 0 then 0 else
      KeptIn(n - 1, packetSize, offset) + if (n - 1) % packetSize >= offset then 1 else 0
  }

  lemma {:induction false} KeptInPackets(n: nat, q: nat, r: nat, packetSize: nat, offset: nat)
    requires offset < packetSize && r <= packetSize && n == q * packetSize + r
    ensures KeptIn(n, packetSize, offset) == q * (packetSize - offset) + if r > offset then r - offset else 0
    decreases q, r
  {
    if r > 0 {
      RemainderUnique(n - 1, packetSize, q, r - 1);
      KeptInPackets(n - 1, q, r - 1, packetSize, offset);
    } else if q > 0 {
      assert (q - 1) * packetSize == q * packetSize - packetSize;
      assert (q - 1) * (packetSize - offset) == q * (packetSize - offset) - (packetSize - offset);
      KeptInPackets(n, q - 1, packetSize, packetSize, offset);
    }
  }

  lemma {:induction false} KeptInGrows(m: nat, n: nat, packetSize: nat, offset: nat)
    requires offset < packetSize && m <= n
    ensures KeptIn(m, packetSize, offset) <= KeptIn(n, packetSize, offset)
  {
    if m < n {
      KeptInGrows(m, n - 1, packetSize, offset);
    }
  }

  /** The last byte of a stretch of whole packets, or of one that ends in a packet behind its first bytes, is kept. */
  lemma LastIsKept(n: nat, q: nat, r: nat, packetSize: nat, offset: nat)
    requires offset < packetSize && r < packetSize && n == q * packetSize + r && (r == 0 || r > offset) && n > 0
    ensures KeptIn(n - 1, packetSize, offset) == KeptIn(n, packetSize, offset) - 1
  {
    if r > 0 {
      RemainderUnique(n - 1, packetSize, q, r - 1);
    } else {
      assert (q - 1) * packetSize == q * packetSize - packetSize;
      RemainderUnique(n - 1, packetSize, q - 1, packetSize - 1);
    }
  }

  lemma TrueLengthIs(amount: nat, packetSize: nat, offset: nat) returns (q: nat, r: nat)
    requires offset < packetSize
    ensures r < packetSize && (r == 0 || r > offset) && TrueLength(amount, packetSize, offset) == q * packetSize + r
    ensures amount == q * (packetSize - offset) + if r > offset then r - offset else 0
  {
    var rest := amount % (packetSize - offset);
    q, r := amount / (packetSize - offset), if rest > 0 then offset + rest else 0;
  }

  /** The true length is the shortest stretch with that many bytes kept. */
  lemma TrueLengthIsLeast(amount: nat, packetSize: nat, offset: nat, n: nat)
    requires offset < packetSize
    ensures KeptIn(TrueLength(amount, packetSize, offset), packetSize, offset) == amount
    ensures n < TrueLength(amount, packetSize, offset) ==> KeptIn(n, packetSize, offset) < amount
  {
    var all := TrueLength(amount, packetSize, offset);
    var q, r := TrueLengthIs(amount, packetSize, offset);
    KeptInPackets(all, q, r, packetSize, offset);
    if n < all {
      LastIsKept(all, q, r, packetSize, offset);
      KeptInGrows(n, all - 1, packetSize, offset);
    }
  }

  /** The stripped length counts the bytes kept of whole packets. */
  lemma StrippedLengthIsKept(amount: nat, packetSize: nat, offset: nat)
    requires offset < packetSize
    ensures StrippedLength(amount, packetSize, offset)
         == KeptIn(amount - amount % packetSize, packetSize, offset) <= KeptIn(amount, packetSize, offset)
  {
    KeptInPackets(amount - amount % packetSize, amount / packetSize, 0, packetSize, offset);
    KeptInGrows(amount - amount % packetSize, amount, packetSize, offset);
  }

  /** Converting there and back loses exactly the bytes of a last broken packet. */
  lemma LengthsRoundTrip(amount: nat, packetSize: nat, offset: nat)
    requires offset < packetSize
    ensures StrippedLength(TrueLength(amount, packetSize, offset), packetSize, offset)
         == amount - amount % (packetSize - offset)
  {
    var q, r := amount / (packetSize - offset), amount % (packetSize - offset);
    RemainderUnique(TrueLength(amount, packetSize, offset), packetSize, q, if r > 0 then offset + r else 0);
  }

  /** Whole packets convert back exactly. */
  lemma WholePacketsRoundTrip(n: nat, packetSize: nat, offset: nat)
    requires offset < packetSize
    ensures TrueLength(StrippedLength(n * packetSize, packetSize, offset), packetSize, offset) == n * packetSize
  {
    ExactQuotient(n, packetSize);
    ExactQuotient(n, packetSize - offset);
    RemainderUnique(n * (packetSize - offset), packetSize - offset, n, 0);
  }
}
