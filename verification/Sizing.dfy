/** How large buffers and writes are made: searches for sizes that are whole packets and whole disk blocks. */
module Sizing {
  import opened Bytes

  const BLOCK_ALIGN: nat := 4096

  predicate Divides(d: nat, n: nat) {
    d > 0 && n % d == 0
  }

  // ---------- Whole blocks out of whole packets ----------

  predicate WholeBlocks(n: nat, size: nat) {
    n * size % BLOCK_ALIGN == 0
  }

  /** Cuts the capacity of a buffer until its packets fill whole blocks. */
  method AlignElements(filesize: nat, size: nat) returns (ret: int, n: nat)
    requires size > 0
    ensures n <= filesize / size && WholeBlocks(n, size)
    ensures forall k :: n < k <= filesize / size ==> !WholeBlocks(k, size)
    ensures ret == if n == 0 then -1 else 0
  {
    n := filesize / size;
    while n > 0 && n * size % BLOCK_ALIGN != 0
      invariant n <= filesize / size
      invariant forall k :: n < k <= filesize / size ==> !WholeBlocks(k, size)
    {
      n := n - 1;
    }
    ret := if n == 0 then -1 else 0;
  }

  /** The largest divisor of both, searched from d downwards. */
  function CommonDivisor(a: nat, b: nat, d: nat): (g: nat)
    requires d > 0
    ensures 0 < g <= d && Divides(g, a) && Divides(g, b)
    ensures forall e :: g < e <= d ==> !(Divides(e, a) && Divides(e, b))
  {
    if Divides(d, a) && Divides(d, b) then d else CommonDivisor(a, b, d - 1)
  }

  function Gcd(a: nat, b: nat): (g: nat)
    requires b > 0
    ensures g > 0 && Divides(g, a) && Divides(g, b)
  {
    CommonDivisor(a, b, b)
  }

  lemma GcdIsGreatest(a: nat, b: nat, e: nat)
    requires b > 0 && Divides(e, a) && Divides(e, b)
    ensures e <= Gcd(a, b)
  {
    if e > b {
      RemainderUnique(b, e, 0, b);
    }
  }

  /** How many packets make whole blocks: the cut goes down to a multiple of this. */
  function Step(size: nat): nat {
    BLOCK_ALIGN / Gcd(size, BLOCK_ALIGN)
  }

  lemma Multiple(k: int, d: nat)
    requires d > 0
    ensures k * d % d == 0
  {
    RemainderUnique(k * d, d, k, 0);
  }

  lemma Quotient(n: nat, d: nat) returns (q: nat)
    requires Divides(d, n)
    ensures n == q * d
  {
    q := n / d;
  }

  /** The least number of packets, from k on, that make whole blocks. */
  function Least(size: nat, k: nat): (n: nat)
    requires 0 < k <= BLOCK_ALIGN
    ensures k <= n <= BLOCK_ALIGN && WholeBlocks(n, size)
    ensures forall j :: k <= j < n ==> !WholeBlocks(j, size)
    decreases BLOCK_ALIGN - k
  {
    Multiple(size, BLOCK_ALIGN);
    if WholeBlocks(k, size) || k == BLOCK_ALIGN then k else Least(size, k + 1)
  }

  lemma WholeBlocksMinus(a: nat, b: nat, size: nat)
    requires b <= a && WholeBlocks(a, size) && WholeBlocks(b, size)
    ensures WholeBlocks(a - b, size)
  {
    var p := Quotient(a * size, BLOCK_ALIGN);
    var q := Quotient(b * size, BLOCK_ALIGN);
    assert (a - b) * size == a * size - b * size;
    assert (p - q) * BLOCK_ALIGN == p * BLOCK_ALIGN - q * BLOCK_ALIGN;
    Multiple(p - q, BLOCK_ALIGN);
  }

  lemma WholeBlocksTimes(n: nat, q: nat, size: nat)
    requires WholeBlocks(n, size)
    ensures WholeBlocks(q * n, size)
  {
    var p := Quotient(n * size, BLOCK_ALIGN);
    assert q * n * size == q * (n * size) == q * (p * BLOCK_ALIGN) == (q * p) * BLOCK_ALIGN;
    Multiple(q * p, BLOCK_ALIGN);
  }

  lemma WholeRest(n: nat, m: nat, r: nat, size: nat)
    requires n == m + r && WholeBlocks(m, size) && WholeBlocks(n, size)
    ensures WholeBlocks(r, size)
  {
    WholeBlocksMinus(n, m, size);
  }

  lemma SplitBy(n: nat, s: nat) returns (q: nat)
    requires s > 0
    ensures n == q * s + n % s
  {
    q := n / s;
  }

  /** The numbers of packets that make whole blocks are the multiples of the least one. */
  lemma WholeBlocksIff(n: nat, size: nat)
    ensures WholeBlocks(n, size) <==> Divides(Least(size, 1), n)
  {
    var s := Least(size, 1);
    var q := SplitBy(n, s);
    WholeBlocksTimes(s, q, size);
    if WholeBlocks(n, size) {
      WholeRest(n, q * s, n % s, size);
    }
  }

  /** That least number is 4096 / gcd(size, 4096). */
  lemma LeastIsStep(size: nat)
    ensures Least(size, 1) == Step(size)
  {
    var s, g := Least(size, 1), Gcd(size, BLOCK_ALIGN);
    Multiple(size, BLOCK_ALIGN);
    WholeBlocksIff(BLOCK_ALIGN, size);
    var h := Quotient(BLOCK_ALIGN, s);
    HDividesSize(size, s, h);
    GcdIsGreatest(size, BLOCK_ALIGN, h);
    var m := Quotient(BLOCK_ALIGN, g);
    StepWorks(size, g, m);
    WholeBlocksIff(m, size);
    SameFactor(s, h, m, g);
    ExactQuotient(m, g);
  }

  lemma HDividesSize(size: nat, s: nat, h: nat)
    requires s > 0 && h > 0 && BLOCK_ALIGN == h * s && WholeBlocks(s, size)
    ensures Divides(h, size) && Divides(h, BLOCK_ALIGN)
  {
    var k := Quotient(s * size, BLOCK_ALIGN);
    assert s * size == k * (h * s) == s * (k * h);
    CancelFactor(s, size, k * h);
    Multiple(k, h);
    assert BLOCK_ALIGN == s * h;
    Multiple(s, h);
  }

  lemma CancelFactor(s: nat, a: nat, b: nat)
    requires s > 0 && s * a == s * b
    ensures a == b
  {
    assert s * (a - b) == 0;
    if a > b {
      AtLeastOnce(a - b, s);
    } else if a < b {
      AtLeastOnce(b - a, s);
    }
  }

  lemma StepWorks(size: nat, g: nat, m: nat)
    requires Divides(g, size) && BLOCK_ALIGN == m * g
    ensures WholeBlocks(m, size)
  {
    var p := Quotient(size, g);
    assert m * size == m * (p * g) == p * (m * g);
    Multiple(p, BLOCK_ALIGN);
  }

  lemma AtMostOnce(q: nat, x: nat)
    requires x > 0 && q * x <= x
    ensures q <= 1
  {
    if q > 1 {
      AtLeastOnce(q - 1, x);
    }
  }

  lemma SameFactor(s: nat, h: nat, m: nat, g: nat)
    requires s > 0 && g > 0 && BLOCK_ALIGN == h * s == m * g && h <= g && Divides(s, m)
    ensures s == m
  {
    assert m > 0;
    var q := Quotient(m, s);
    assert q >= 1;
    assert m * g == q * (s * g) && h * s <= s * g;
    AtMostOnce(q, s * g);
  }

  /** Step * size is the least common multiple of the packet size and the block size. */
  lemma StepIsLeast(size: nat, k: nat)
    requires k > 0
    ensures WholeBlocks(Step(size), size)
    ensures WholeBlocks(k, size) ==> Step(size) <= k
  {
    LeastIsStep(size);
    if WholeBlocks(k, size) && k < Least(size, 1) {
      assert false;
    }
  }

  lemma LargestMultiple(total: nat, size: nat, s: nat, q: nat)
    requires s > 0 && s == Least(size, 1) && total == q * s + total % s
    ensures WholeBlocks(q * s, size)
  {
    WholeBlocksTimes(s, q, size);
  }

  /** Exactly what the cut leaves: it goes down to a multiple of the step, and fails only when the buffer is
      too small for one step. */
  lemma CutIsToStep(total: nat, size: nat, n: nat)
    requires n <= total && WholeBlocks(n, size)
    requires forall k :: n < k <= total ==> !WholeBlocks(k, size)
    ensures n == total - total % Step(size) && (n == 0 <==> total < Step(size))
  {
    LeastIsStep(size);
    var s := Step(size);
    var q := SplitBy(total, s);
    LargestMultiple(total, size, s, q);
    WholeBlocksIff(n, size);
    var p := Quotient(n, s);
    CutIsLess(p, q, s, n, total);
  }

  lemma LessTimesOrEqual(a: nat, b: nat, size: nat)
    requires a <= b
    ensures a * size <= b * size
  {
    assert (b - a) * size == b * size - a * size;
  }

  /** The bytes cut are fewer than the least common multiple of packet size and block size, which is that of
      one step of packets. */
  lemma CutIsBelowMultiples(total: nat, size: nat, n: nat, c: nat)
    requires size > 0 && n == total - total % Step(size)
    requires c > 0 && Divides(size, c) && Divides(BLOCK_ALIGN, c)
    ensures (total - n) * size < Step(size) * size <= c
    ensures Divides(size, Step(size) * size) && Divides(BLOCK_ALIGN, Step(size) * size)
  {
    LessTimesSize(total - n, Step(size), size);
    var k := Quotient(c, size);
    StepIsLeast(size, k);
    LessTimesOrEqual(Step(size), k, size);
    Multiple(Step(size), size);
  }

  lemma CutIsLess(p: nat, q: nat, s: nat, n: nat, total: nat)
    requires s > 0 && n == p * s && q * s <= n <= total && total == q * s + total % s
    ensures n == q * s && (n == 0 <==> total < s)
  {
    assert (p - q) * s == p * s - q * s;
    if p > q {
      AtLeastOnce(p - q, s);
    }
    if q > 0 {
      AtLeastOnce(q, s);
    }
  }

  lemma LessTimesSize(a: nat, b: nat, size: nat)
    requires size > 0 && a < b
    ensures a * size < b * size
  {
    AtLeastOnce(b - a, size);
    assert (b - a) * size == b * size - a * size;
  }

  // ---------- The buffer-size search ----------

  /** A receive ring wants packets of a multiple of 16 bytes. */
  method PacketAdjustment(size: nat) returns (adjusted: nat)
    ensures adjusted % 16 == 0 && size <= adjusted < size + 16
    ensures size % 16 == 0 ==> adjusted == size
  {
    ghost var next := size + (16 - size % 16) % 16;
    adjusted := size;
    while adjusted % 16 != 0
      invariant size <= adjusted <= next
      decreases next - adjusted
    {
      adjusted := adjusted + 1;
    }
  }

  /** The memory all buffers take together. */
  function Memory(write: nat, division: nat, threads: nat): nat {
    write * division * threads
  }

  lemma TimesAtLeast(a: nat, b: nat)
    requires b > 0
    ensures a * b >= a
  {
    LessTimesOrEqual(1, b, a);
  }

  lemma SumTimes(a: nat, b: nat, c: nat)
    ensures (a + b) * c == a * c + b * c
  {
  }

  /** Larger writes take more memory. */
  lemma MemoryGrows(write: nat, more: nat, division: nat, threads: nat)
    requires division > 0 && threads > 0
    ensures Memory(write + more, division, threads) >= Memory(write, division, threads) + more
  {
    SumTimes(write, more, division);
    SumTimes(write * division, more * division, threads);
    TimesAtLeast(more, division);
    TimesAtLeast(more * division, threads);
  }

  /** So do more of them. */
  lemma MemoryDivides(write: nat, division: nat, threads: nat)
    requires write > 0 && threads > 0
    ensures Memory(write, division + 1, threads) > Memory(write, division, threads)
  {
    SumTimes(division, 1, write);
    SumTimes(write * division, write, threads);
    TimesAtLeast(write, threads);
  }

  /** No write of at least `least` packets and of whole blocks stays below the maximum of memory. */
  ghost predicate NoFit(least: nat, size: nat, division: nat, threads: nat, maxmem: nat) {
    forall n: nat :: n >= least && WholeBlocks(n, size) ==> n * size * division * threads >= maxmem
  }

  /** Raises the number of blocks per buffer until the minimum of memory is used. */
  method RaiseDivision(write: nat, threads: nat, minmem: nat) returns (division: nat)
    requires (write > 0 || minmem == 0) && threads > 0
    ensures division >= 8 && Memory(write, division, threads) >= minmem
    ensures division > 8 ==> Memory(write, division - 1, threads) < minmem
  {
    division := 8;
    while Memory(write, division, threads) < minmem
      invariant division >= 8
      invariant division > 8 ==> Memory(write, division - 1, threads) < minmem
      decreases minmem - Memory(write, division, threads)
    {
      MemoryDivides(write, division, threads);
      division := division + 1;
    }
  }

  /** For one division: the smallest write of at least `least` packets that is of whole blocks, if it stays below
      the maximum of memory; it has n packets. */
  method SearchWrite(least: nat, size: nat, division: nat, threads: nat, maxmem: nat)
    returns (found: bool, write: nat, ghost n: nat)
    requires size > 0 && division > 0 && threads > 0
    ensures write == n * size && n >= least && forall m :: least <= m < n ==> !WholeBlocks(m, size)
    ensures found ==> WholeBlocks(n, size) && Memory(write, division, threads) < maxmem
    ensures !found ==> NoFit(least, size, division, threads, maxmem)
  {
    found, write, n := false, least * size, least;
    while Memory(write, division, threads) < maxmem
      invariant n >= least && write == n * size && forall m :: least <= m < n ==> !WholeBlocks(m, size)
      decreases maxmem - Memory(write, division, threads)
    {
      if write % BLOCK_ALIGN == 0 {
        found := true;
        return;
      }
      MemoryGrows(write, size, division, threads);
      SumTimes(n, 1, size);
      write := write + size;
      n := n + 1;
    }
    TooMuchFromHere(least, n, size, division, threads, maxmem);
  }

  lemma TooMuchFromHere(least: nat, n: nat, size: nat, division: nat, threads: nat, maxmem: nat)
    requires division > 0 && threads > 0 && Memory(n * size, division, threads) >= maxmem
    requires forall m :: least <= m < n ==> !WholeBlocks(m, size)
    ensures NoFit(least, size, division, threads, maxmem)
  {
    forall m: nat | m >= least && WholeBlocks(m, size)
      ensures m * size * division * threads >= maxmem
    {
      SumTimes(n, m - n, size);
      LessTimesOrEqual(n, m, size);
      MemoryGrows(n * size, m * size - n * size, division, threads);
    }
  }

  /** The write of n packets is the smallest of whole blocks from `least` packets on, and stays below the maximum. */
  ghost predicate Found(least: nat, size: nat, division: nat, threads: nat, maxmem: nat, write: nat, n: nat) {
    && n >= least && write == n * size && WholeBlocks(n, size) && Memory(write, division, threads) < maxmem
    && forall m :: least <= m < n ==> !WholeBlocks(m, size)
  }

  /** From the raised division down to one block per buffer. */
  method SearchDivision(least: nat, size: nat, first: nat, threads: nat, maxmem: nat)
    returns (found: bool, write: nat, division: nat, ghost n: nat)
    requires size > 0 && threads > 0
    ensures found ==> 0 < division <= first && Found(least, size, division, threads, maxmem, write, n)
    ensures found && division < first ==> NoFit(least, size, division + 1, threads, maxmem)
    ensures !found && first > 0 ==> NoFit(least, size, 1, threads, maxmem)
  {
    found, write, division, n := false, least * size, first, least;
    while !found && division > 0
      invariant division <= first
      invariant division < first ==> NoFit(least, size, division + 1, threads, maxmem)
      invariant found ==> division > 0 && Found(least, size, division, threads, maxmem, write, n)
      decreases !found, division
    {
      found, write, n := SearchWrite(least, size, division, threads, maxmem);
      if !found {
        division := division - 1;
      }
    }
  }

  lemma OnceIsLeast(write: nat, division: nat, threads: nat)
    requires division > 0
    ensures write * division * threads >= write * 1 * threads
  {
    assert write * division * threads == write * threads * division;
    TimesAtLeast(write * threads, division);
  }

  lemma FoundIs(least: nat, size: nat, division: nat, threads: nat, maxmem: nat, write: nat, n: nat)
    requires size > 0 && Found(least, size, division, threads, maxmem, write, n)
    ensures write * division * threads < maxmem && write * division / size == n * division
    ensures NoFit(least, size, division + 1, threads, maxmem) ==> write * (division + 1) * threads >= maxmem
    ensures division > 0 ==> !NoFit(least, size, 1, threads, maxmem) && (least > 0 ==> n * division > 0)
  {
    assert write * division == n * division * size;
    ExactQuotient(n * division, size);
    if division > 0 {
      OnceIsLeast(write, division, threads);
      TimesAtLeast(n, division);
    }
  }

  /** The whole search, from the raised division down to one block per buffer. A write of n packets is found if and
      only if some write of whole blocks fits once per thread; it is then the smallest of whole blocks that is not
      smaller than the one asked for, and there are as many in a buffer as fit, but not more than the minimum of
      memory called for. */
  method CalculateBufferSizes(size: nat, every: nat, threads: nat, minmem: nat, maxmem: nat)
    returns (ret: int, write: nat, division: nat, numElems: nat, first: nat, ghost n: nat)
    requires size > 0 && (every >= size || minmem == 0) && threads > 0
    ensures first >= 8 && every / size * size * first * threads >= minmem
    ensures first > 8 ==> every / size * size * (first - 1) * threads < minmem
    ensures ret == 0 ==> write == n * size && numElems == n * division && WholeBlocks(n, size)
    ensures ret == 0 ==> every / size <= n && forall m :: every / size <= m < n ==> !WholeBlocks(m, size)
    ensures ret == 0 ==> 0 < division <= first && write * division * threads < maxmem
    ensures ret == 0 && division < first ==> write * (division + 1) * threads >= maxmem
    ensures ret == 0 && every >= size ==> numElems > 0
    ensures ret == if NoFit(every / size, size, 1, threads, maxmem) then -1 else 0
  {
    AskedFor(every, size);
    first := RaiseDivision(every / size * size, threads, minmem);
    var found: bool;
    found, write, division, n := SearchDivision(every / size, size, first, threads, maxmem);
    if !found {
      return -1, write, division, 0, first, n;
    }
    FoundIs(every / size, size, division, threads, maxmem, write, n);
    ret, numElems := 0, write * division / size;
  }

  lemma AskedFor(every: nat, size: nat)
    requires size > 0
    ensures every >= size ==> every / size > 0 && every / size * size > 0
  {
    if every >= size {
      AtLeastOnce(every / size, size);
    }
  }

  lemma NoFitForMore(least: nat, size: nat, division: nat, threads: nat, maxmem: nat)
    requires division > 0 && NoFit(least, size, 1, threads, maxmem)
    ensures NoFit(least, size, division, threads, maxmem)
  {
    forall n: nat | n >= least && WholeBlocks(n, size)
      ensures n * size * division * threads >= maxmem
    {
      OnceIsLeast(n * size, division, threads);
    }
  }

  /** The search fails only when even one block per buffer is too much, so it fails exactly when no write of whole
      blocks fits once per thread. */
  lemma FailsIffOneBlockTooMuch(least: nat, size: nat, threads: nat, maxmem: nat, first: nat)
    requires threads > 0 && first > 0
    ensures (forall d :: 0 < d <= first ==> NoFit(least, size, d, threads, maxmem))
       <==> NoFit(least, size, 1, threads, maxmem)
  {
    if NoFit(least, size, 1, threads, maxmem) {
      forall d: nat | 0 < d <= first
        ensures NoFit(least, size, d, threads, maxmem)
      {
        NoFitForMore(least, size, d, threads, maxmem);
      }
    }
  }
}
