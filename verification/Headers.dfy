/** Packet headers of the two formats that carry a plain running packet number, and the hole
    filler that runs on a buffer before it is written to disk. */
module Headers {
  import opened Bytes
  import opened Options

  /** UDPMON: 64-bit big-endian number in front. MARK5BNET: 32-bit host-order number after
      four bytes of filler, inside a 24-byte header. */
  datatype Kind = Udpmon | Mark5bNet

  type Packet = seq<byte>

  function HeaderSize(kind: Kind): nat {
    match kind
    case Udpmon => 8
    case Mark5bNet => 24
  }

  /** How many packet numbers the format can tell apart. */
  function Modulus(kind: Kind): (m: nat)
    ensures m >= 1
  {
    match kind
    case Udpmon => 0x1_0000_0000_0000_0000
    case Mark5bNet => 0x1_0000_0000
  }

  lemma Widths()
    ensures Pow256(8) == Modulus(Udpmon) && Pow256(4) == Modulus(Mark5bNet)
  {
  }

  const UINT64_MAX: nat := 0xffff_ffff_ffff_ffff

  /** A 4- or 8-byte counter, as a 64-bit unsigned value; any other width is reported as -1. */
  function GetACount(buffer: seq<byte>, wordSize: nat, offset: nat, swap: bool): nat
    requires wordSize in {4, 8} ==> (offset + 1) * wordSize <= |buffer|
  {
    if wordSize == 4 || wordSize == 8 then
      var word := buffer[offset * wordSize .. offset * wordSize + wordSize];
      if swap then FromBE(word) else FromLE(word)
    else
      UINT64_MAX
  }

  function RawNumber(kind: Kind, p: Packet): nat
    requires |p| >= HeaderSize(kind)
  {
    match kind
    case Udpmon => GetACount(p, 8, 0, true)
    case Mark5bNet => FromLE(p[4..8])
  }

  /** The unsigned field read into a signed integer of the same width. */
  function Signed(raw: int, modulus: nat): int {
    if 2 * raw >= modulus then raw - modulus else raw
  }

  /** The packet number as the streamer sees it. */
  function Number(kind: Kind, p: Packet): int
    requires |p| >= HeaderSize(kind)
  {
    Signed(RawNumber(kind, p), Modulus(kind))
  }

  function SetNumber(kind: Kind, header: Packet, n: int): (r: Packet)
    requires |header| >= HeaderSize(kind)
    ensures |r| == |header|
  {
    match kind
    case Udpmon => ToBE(n % Modulus(kind), 8) + header[8..]
    case Mark5bNet => header[..4] + ToLE(n % Modulus(kind), 4) + header[8..]
  }

  function Increment(kind: Kind, header: Packet): (r: Packet)
    requires |header| >= HeaderSize(kind)
    ensures |r| == |header|
  {
    SetNumber(kind, header, Number(kind, header) + 1)
  }

  /** Zero when the two headers carry the same number; otherwise how far apart they are. */
  function HeaderMatch(kind: Kind, target: Packet, match_: Packet): int
    requires |target| >= HeaderSize(kind) && |match_| >= HeaderSize(kind)
  {
    match kind
    case Udpmon => Signed((RawNumber(kind, target) - RawNumber(kind, match_)) % Modulus(kind), Modulus(kind))
    case Mark5bNet => Number(kind, target) - Number(kind, match_)
  }

  /** How many packets of the recording come before the first one of a file. */
  function FileStart(numElems: nat, fileId: nat): nat {
    numElems * fileId
  }

  /** The header of the packet that comes `offset` after the first one received. */
  function ExpectedHeader(kind: Kind, first: Packet, offset: int): (r: Packet)
    requires |first| >= HeaderSize(kind)
    ensures |r| == HeaderSize(kind)
  {
    SetNumber(kind, first[..HeaderSize(kind)], Number(kind, first) + offset)
  }

  /** The header the first slot of a file should carry, modelled on the first packet received. */
  function InitialHeader(kind: Kind, first: Packet, numElems: nat, fileId: nat): (r: Packet)
    requires |first| >= HeaderSize(kind)
    ensures |r| == HeaderSize(kind)
  {
    ExpectedHeader(kind, first, FileStart(numElems, fileId))
  }

  // ---------- What the number field means ----------

  /** Four bytes as a number, the most significant first. */
  function Weigh(b3: int, b2: int, b1: int, b0: int): int {
    0x100_0000 * b3 + 0x1_0000 * b2 + 0x100 * b1 + b0
  }

  lemma FourBytes(b: seq<byte>)
    requires |b| == 4
    ensures FromLE(b) == Weigh(b[3], b[2], b[1], b[0])
  {
    assert b[1..][1..] == b[2..] && b[2..][1..] == b[3..] && b[3..][1..] == [];
    assert FromLE(b[3..]) == b[3];
    assert FromLE(b[2..]) == b[2] + 256 * FromLE(b[3..]);
  }

  lemma EightBytes(b: seq<byte>)
    requires |b| == 8
    ensures FromLE(b) == 0x1_0000_0000 * Weigh(b[7], b[6], b[5], b[4]) + Weigh(b[3], b[2], b[1], b[0])
  {
    FourBytes(b[4..]);
    assert b[1..][1..] == b[2..] && b[2..][1..] == b[3..] && b[3..][1..] == b[4..];
    assert FromLE(b[3..]) == b[3] + 256 * FromLE(b[4..]);
    assert FromLE(b[2..]) == b[2] + 256 * FromLE(b[3..]);
    assert FromLE(b[1..]) == b[1] + 256 * FromLE(b[2..]);
  }

  /** The number in the bytes of the header: UDPMON has it in bytes 0 to 7, the most significant first, MARK5BNET in
      bytes 4 to 7, the least significant first. */
  lemma NumberInBytes(kind: Kind, p: Packet)
    requires |p| >= HeaderSize(kind)
    ensures RawNumber(kind, p) ==
      match kind
      case Udpmon => 0x1_0000_0000 * Weigh(p[0], p[1], p[2], p[3]) + Weigh(p[4], p[5], p[6], p[7])
      case Mark5bNet => Weigh(p[7], p[6], p[5], p[4])
  {
    match kind
    case Udpmon => EightBytes(Swap(p[0..8]));
    case Mark5bNet => FourBytes(p[4..8]);
  }

  /** Which byte counts more: of two headers that agree on the number bytes before byte i of the number, counted
      from the most significant, the one with the larger byte there has the larger number. */
  lemma MoreSignificantWins(kind: Kind, p: Packet, q: Packet, i: nat)
    requires |p| >= HeaderSize(kind) && |q| >= HeaderSize(kind)
    requires i < match kind case Udpmon => 8 case Mark5bNet => 4
    requires kind.Udpmon? ==> p[..i] == q[..i] && p[i] < q[i]
    requires kind.Mark5bNet? ==> p[8 - i..8] == q[8 - i..8] && p[7 - i] < q[7 - i]
    ensures RawNumber(kind, p) < RawNumber(kind, q)
  {
    NumberInBytes(kind, p);
    NumberInBytes(kind, q);
    match kind {
      case Udpmon =>
        assert forall j :: 0 <= j < i ==> p[j] == p[..i][j] && q[j] == q[..i][j];
      case Mark5bNet =>
        assert forall j :: 8 - i <= j < 8 ==> p[j] == p[8 - i..8][j - (8 - i)] && q[j] == q[8 - i..8][j - (8 - i)];
    }
  }

  /** A header of zeros but for the last byte of the number has that byte as its number: 0,0,0,0,0,0,0,5 is 5. */
  lemma SmallNumberIsLastByte(kind: Kind, p: Packet)
    requires |p| >= HeaderSize(kind)
    requires kind.Udpmon? ==> forall j :: 0 <= j < 7 ==> p[j] == 0
    requires kind.Mark5bNet? ==> forall j :: 5 <= j < 8 ==> p[j] == 0
    ensures Number(kind, p) == if kind.Udpmon? then p[7] else p[4]
  {
    NumberInBytes(kind, p);
  }

  // ---------- What the number field round-trips ----------

  lemma RawNumberFits(kind: Kind, p: Packet)
    requires |p| >= HeaderSize(kind)
    ensures RawNumber(kind, p) < Modulus(kind)
  {
    Widths();
    match kind
    case Udpmon => FitsLE(Swap(p[0..8]));
    case Mark5bNet => FitsLE(p[4..8]);
  }

  lemma SignedIsCongruent(raw: nat, modulus: nat)
    requires raw < modulus
    ensures Signed(raw, modulus) % modulus == raw
  {
    if 2 * raw >= modulus {
      RemainderUnique(raw - modulus, modulus, -1, raw);
    } else {
      RemainderUnique(raw, modulus, 0, raw);
    }
  }

  /** The signed number determines the field and the other way round. */
  lemma NumberIsCongruent(kind: Kind, p: Packet)
    requires |p| >= HeaderSize(kind)
    ensures Number(kind, p) % Modulus(kind) == RawNumber(kind, p)
  {
    RawNumberFits(kind, p);
    SignedIsCongruent(RawNumber(kind, p), Modulus(kind));
  }

  /** Reading a number that was set gives it back modulo the width of the field, and setting it
      touches no other byte. */
  lemma SetThenGet(kind: Kind, header: Packet, n: int)
    requires |header| >= HeaderSize(kind)
    ensures RawNumber(kind, SetNumber(kind, header, n)) == n % Modulus(kind)
    ensures kind.Udpmon? ==> SetNumber(kind, header, n)[8..] == header[8..]
    ensures kind.Mark5bNet? ==> SetNumber(kind, header, n)[..4] == header[..4]
    ensures kind.Mark5bNet? ==> SetNumber(kind, header, n)[8..] == header[8..]
  {
    var m := Modulus(kind);
    Widths();
    RemainderUnique(n % m, m, 0, n % m);
    match kind {
      case Udpmon =>
        ReadBackBE(n % m, 8);
        assert SetNumber(kind, header, n)[0..8] == ToBE(n % m, 8);
      case Mark5bNet =>
        ReadBackLE(n % m, 4);
        assert SetNumber(kind, header, n)[4..8] == ToLE(n % m, 4);
    }
  }

  lemma ShiftedRemainder(a: int, m: nat, d: int)
    requires m > 0
    ensures (a % m + d) % m == (a + d) % m
  {
    var q, r := (a % m + d) / m, (a % m + d) % m;
    assert a + d == (a / m) * m + (a % m + d);
    assert a + d == (a / m) * m + q * m + r;
    assert (a / m + q) * m == (a / m) * m + q * m;
    RemainderUnique(a + d, m, a / m + q, r);
  }

  lemma EqualRemainder(a: int, b: int, m: nat)
    requires m > 0 && a % m == b % m
    ensures (a - b) % m == 0
  {
    assert a - b == (a / m) * m - (b / m) * m;
    assert (a / m - b / m) * m == (a / m) * m - (b / m) * m;
    RemainderUnique(a - b, m, a / m - b / m, 0);
  }

  lemma CongruentNumbersSetAlike(kind: Kind, header: Packet, a: int, b: int)
    requires |header| >= HeaderSize(kind)
    requires a % Modulus(kind) == b % Modulus(kind)
    ensures SetNumber(kind, header, a) == SetNumber(kind, header, b)
  {
  }

  /** Incrementing commutes with the wrap of the field. */
  lemma IncrementWraps(kind: Kind, header: Packet)
    requires |header| >= HeaderSize(kind)
    ensures RawNumber(kind, Increment(kind, header)) == (RawNumber(kind, header) + 1) % Modulus(kind)
  {
    SetThenGet(kind, header, Number(kind, header) + 1);
    NumberIsCongruent(kind, header);
    ShiftedRemainder(Number(kind, header), Modulus(kind), 1);
  }

  lemma SetTwice(kind: Kind, header: Packet, a: int, b: int)
    requires |header| >= HeaderSize(kind)
    ensures SetNumber(kind, SetNumber(kind, header, a), b) == SetNumber(kind, header, b)
  {
    SetThenGet(kind, header, a);
  }

  /** The model header, incremented once per slot, is the header expected there. */
  lemma IncrementExpected(kind: Kind, first: Packet, offset: int)
    requires |first| >= HeaderSize(kind)
    ensures Increment(kind, ExpectedHeader(kind, first, offset)) == ExpectedHeader(kind, first, offset + 1)
  {
    IncrementSet(kind, first[..HeaderSize(kind)], Number(kind, first) + offset);
  }

  lemma IncrementSet(kind: Kind, base: Packet, n: int)
    requires |base| >= HeaderSize(kind)
    ensures Increment(kind, SetNumber(kind, base, n)) == SetNumber(kind, base, n + 1)
  {
    var m := Number(kind, SetNumber(kind, base, n));
    SetIsCongruent(kind, base, n);
    SetTwice(kind, base, n, m + 1);
    NextIsCongruent(m, n, Modulus(kind));
    CongruentNumbersSetAlike(kind, base, m + 1, n + 1);
  }

  lemma SetIsCongruent(kind: Kind, base: Packet, n: int)
    requires |base| >= HeaderSize(kind)
    ensures Number(kind, SetNumber(kind, base, n)) % Modulus(kind) == n % Modulus(kind)
  {
    SetThenGet(kind, base, n);
    NumberIsCongruent(kind, SetNumber(kind, base, n));
  }

  lemma NextIsCongruent(a: int, b: int, m: nat)
    requires m > 0 && a % m == b % m
    ensures (a + 1) % m == (b + 1) % m
  {
    ShiftedRemainder(a, m, 1);
    ShiftedRemainder(b, m, 1);
  }

  /** The difference test is exact: it is zero only for equal numbers. */
  lemma HeaderMatchIsEquality(kind: Kind, a: Packet, b: Packet)
    requires |a| >= HeaderSize(kind) && |b| >= HeaderSize(kind)
    ensures HeaderMatch(kind, a, b) == 0 <==> RawNumber(kind, a) == RawNumber(kind, b)
  {
    RawNumberFits(kind, a);
    RawNumberFits(kind, b);
    NumberIsCongruent(kind, a);
    NumberIsCongruent(kind, b);
    var m, d := Modulus(kind), RawNumber(kind, a) - RawNumber(kind, b);
    if d < 0 {
      RemainderUnique(d, m, -1, d + m);
    } else {
      RemainderUnique(d, m, 0, d);
    }
  }

  // ---------- The hole filler ----------

  /** How many slots of the file are visited: all of them while no index knows how much was
      received, otherwise only those that are counted as received. */
  function Visited(numElems: nat, packets: Option<int>, fileId: nat): (v: nat)
    ensures v <= numElems
  {
    match packets
    case None => numElems
    case Some(n) =>
      var left := n - numElems * fileId;
      if left <= 0 then 0 else if numElems < left then numElems else left
  }

  predicate IsHole(kind: Kind, slot: Packet, expected: Packet)
    requires |slot| >= HeaderSize(kind) && |expected| >= HeaderSize(kind)
  {
    RawNumber(kind, slot) != RawNumber(kind, expected)
  }

  function Patched(kind: Kind, slot: Packet, expected: Packet): (r: Packet)
    requires |slot| >= HeaderSize(kind) && |expected| == HeaderSize(kind)
    ensures |r| == |slot|
  {
    if IsHole(kind, slot, expected) then expected + slot[HeaderSize(kind)..] else slot
  }

  predicate WellSized(kind: Kind, memory: seq<Packet>) {
    forall k :: 0 <= k < |memory| ==> |memory[k]| >= HeaderSize(kind)
  }

  /** The buffer after the filler has visited its first `upTo` slots; `start` packets come before it. */
  function Filled(kind: Kind, first: Packet, start: int, memory: seq<Packet>, upTo: nat): (r: seq<Packet>)
    requires |first| >= HeaderSize(kind) && WellSized(kind, memory)
    ensures |r| == |memory| && WellSized(kind, r)
  {
    seq(|memory|, k requires 0 <= k < |memory| =>
      if k < upTo then Patched(kind, memory[k], ExpectedHeader(kind, first, start + k)) else memory[k])
  }

  predicate HoleAt(kind: Kind, first: Packet, start: int, memory: seq<Packet>, k: nat)
    requires |first| >= HeaderSize(kind) && WellSized(kind, memory) && k < |memory|
  {
    IsHole(kind, memory[k], ExpectedHeader(kind, first, start + k))
  }

  function CountHoles(kind: Kind, first: Packet, start: int, memory: seq<Packet>, upTo: nat): nat
    requires |first| >= HeaderSize(kind) && WellSized(kind, memory) && upTo <= |memory|
  {
    if upTo == 0 then 0 else
      CountHoles(kind, first, start, memory, upTo - 1)
      + if HoleAt(kind, first, start, memory, upTo - 1) then 1 else 0
  }

  lemma CountOneMore(kind: Kind, first: Packet, start: int, memory: seq<Packet>, i: nat)
    requires |first| >= HeaderSize(kind) && WellSized(kind, memory) && i < |memory|
    ensures CountHoles(kind, first, start, memory, i + 1)
         == CountHoles(kind, first, start, memory, i) + if HoleAt(kind, first, start, memory, i) then 1 else 0
  {
  }

  lemma FilledOneMore(kind: Kind, first: Packet, start: int, memory: seq<Packet>, i: nat)
    requires |first| >= HeaderSize(kind) && WellSized(kind, memory) && i < |memory|
    ensures var r := Filled(kind, first, start, memory, i);
      && r[i] == memory[i]
      && Filled(kind, first, start, memory, i + 1)
         == r[i := Patched(kind, memory[i], ExpectedHeader(kind, first, start + i))]
  {
  }

  /** Visits one slot: writes the model header over the one in the slot if their numbers differ. */
  method VisitSlot(kind: Kind, buffer: array<Packet>, i: nat, model: Packet) returns (hole: bool)
    requires i < buffer.Length && |buffer[i]| >= HeaderSize(kind) && |model| == HeaderSize(kind)
    modifies buffer
    ensures hole == IsHole(kind, old(buffer[i]), model)
    ensures buffer[..] == old(buffer[..])[i := Patched(kind, old(buffer[i]), model)]
  {
    HeaderMatchIsEquality(kind, buffer[i], model);
    hole := HeaderMatch(kind, buffer[i], model) != 0;
    if hole {
      buffer[i] := model + buffer[i][HeaderSize(kind)..];
    }
  }

  /** The state of the walk before slot i: the slots before it are patched, and the model header is the one
      that slot i should carry. */
  ghost predicate Walking(kind: Kind, first: Packet, start: int, was: seq<Packet>, i: nat,
                          now: seq<Packet>, model: Packet, errors: nat) {
    && |first| >= HeaderSize(kind) && WellSized(kind, was) && i <= |was|
    && now == Filled(kind, first, start, was, i)
    && model == ExpectedHeader(kind, first, start + i)
    && errors == CountHoles(kind, first, start, was, i)
  }

  lemma WalkOne(kind: Kind, first: Packet, start: int, was: seq<Packet>, i: nat, now: seq<Packet>, model: Packet,
                errors: nat)
    requires Walking(kind, first, start, was, i, now, model, errors) && i < |was|
    ensures i < |now| && now[i] == was[i] && |now[i]| >= HeaderSize(kind) && |model| == HeaderSize(kind)
    ensures Walking(kind, first, start, was, i + 1, now[i := Patched(kind, now[i], model)], Increment(kind, model),
                    errors + if IsHole(kind, now[i], model) then 1 else 0)
  {
    FilledOneMore(kind, first, start, was, i);
    IncrementExpected(kind, first, start + i);
    CountOneMore(kind, first, start, was, i);
  }

  /** One round of the walk: visits slot i and moves the model header on to the next slot. */
  method FillSlot(kind: Kind, buffer: array<Packet>, i: nat, model: Packet, errors: nat,
                  ghost first: Packet, ghost start: int, ghost was: seq<Packet>)
    returns (next: Packet, found: nat)
    requires Walking(kind, first, start, was, i, buffer[..], model, errors) && i < |was|
    modifies buffer
    ensures Walking(kind, first, start, was, i + 1, buffer[..], next, found)
  {
    WalkOne(kind, first, start, was, i, buffer[..], model, errors);
    assert buffer[..][i] == buffer[i];
    var hole := VisitSlot(kind, buffer, i, model);
    found := errors + if hole then 1 else 0;
    next := Increment(kind, model);
  }

  /** Walks the first `visited` slots of the buffer with the model header and overwrites every header that
      misses it. */
  method WalkSlots(kind: Kind, buffer: array<Packet>, visited: nat, header: Packet, ghost first: Packet,
                   ghost start: int)
    returns (errors: nat)
    requires Walking(kind, first, start, buffer[..], 0, buffer[..], header, 0) && visited <= buffer.Length
    modifies buffer
    ensures exists model :: Walking(kind, first, start, old(buffer[..]), visited, buffer[..], model, errors)
  {
    ghost var was := buffer[..];
    var model, i := header, 0;
    errors := 0;
    while i < visited
      invariant 0 <= i <= visited && Walking(kind, first, start, was, i, buffer[..], model, errors)
    {
      model, errors := FillSlot(kind, buffer, i, model, errors, first, start, was);
      i := i + 1;
    }
  }

  lemma WalkStarts(kind: Kind, first: Packet, start: int, buffer: seq<Packet>)
    requires |first| >= HeaderSize(kind) && WellSized(kind, buffer)
    ensures Walking(kind, first, start, buffer, 0, buffer, ExpectedHeader(kind, first, start), 0)
  {
    assert buffer == Filled(kind, first, start, buffer, 0);
  }

  /** The loop of the filler, from the model header of the first slot on. */
  method FillHoles(kind: Kind, first: Packet, visited: nat, fileId: nat, buffer: array<Packet>) returns (errors: nat)
    requires |first| >= HeaderSize(kind) && WellSized(kind, buffer[..]) && visited <= buffer.Length
    modifies buffer
    ensures buffer[..] == Filled(kind, first, FileStart(buffer.Length, fileId), old(buffer[..]), visited)
    ensures errors == CountHoles(kind, first, FileStart(buffer.Length, fileId), old(buffer[..]), visited)
  {
    WalkStarts(kind, first, FileStart(buffer.Length, fileId), buffer[..]);
    errors := WalkSlots(kind, buffer, visited, InitialHeader(kind, first, buffer.Length, fileId), first,
                        FileStart(buffer.Length, fileId));
  }

  /** The filler as the writer calls it: nothing is done while the first packet is unknown. */
  method CheckAndFill(kind: Kind, first: Option<Packet>, packets: Option<int>, fileId: nat, buffer: array<Packet>)
    returns (err: int, errors: nat)
    requires first.Some? ==> |first.value| >= HeaderSize(kind)
    requires WellSized(kind, buffer[..])
    modifies buffer
    ensures first.None? ==> err == -1 && errors == 0 && buffer[..] == old(buffer[..])
    ensures first.Some? ==> var visited := Visited(buffer.Length, packets, fileId);
      && err == 0
      && buffer[..] == Filled(kind, first.value, FileStart(buffer.Length, fileId), old(buffer[..]), visited)
      && errors == CountHoles(kind, first.value, FileStart(buffer.Length, fileId), old(buffer[..]), visited)
  {
    if first.None? {
      return -1, 0;
    }
    errors := FillHoles(kind, first.value, Visited(buffer.Length, packets, fileId), fileId, buffer);
    err := 0;
  }

  lemma PatchedMatches(kind: Kind, slot: Packet, expected: Packet)
    requires |slot| >= HeaderSize(kind) && |expected| == HeaderSize(kind)
    ensures RawNumber(kind, Patched(kind, slot, expected)) == RawNumber(kind, expected)
    ensures Patched(kind, slot, expected)[HeaderSize(kind)..] == slot[HeaderSize(kind)..]
    ensures RawNumber(kind, slot) == RawNumber(kind, expected) ==> Patched(kind, slot, expected) == slot
  {
    if IsHole(kind, slot, expected) {
      var r := Patched(kind, slot, expected);
      assert r[..HeaderSize(kind)] == expected;
      match kind
      case Udpmon => assert r[0..8] == expected[0..8];
      case Mark5bNet => assert r[4..8] == expected[4..8];
    }
  }

  /** The packet's number is `offset` after that of the first packet, modulo the width of the field. */
  predicate Carries(kind: Kind, p: Packet, first: Packet, offset: int)
    requires |p| >= HeaderSize(kind) && |first| >= HeaderSize(kind)
  {
    RawNumber(kind, p) == (RawNumber(kind, first) + offset) % Modulus(kind)
  }

  lemma ExpectedCarries(kind: Kind, first: Packet, offset: int)
    requires |first| >= HeaderSize(kind)
    ensures Carries(kind, ExpectedHeader(kind, first, offset), first, offset)
  {
    SetThenGet(kind, first[..HeaderSize(kind)], Number(kind, first) + offset);
    NumberIsCongruent(kind, first);
    ShiftedRemainder(Number(kind, first), Modulus(kind), offset);
  }

  /** A visited slot ends up with the number its place in the recording demands; a slot that already
      had it keeps all its bytes, any slot keeps its payload, and slots not visited are untouched. */
  lemma FilledIsNumbered(kind: Kind, first: Packet, start: int, memory: seq<Packet>, upTo: nat, k: nat)
    requires |first| >= HeaderSize(kind) && WellSized(kind, memory) && k < |memory|
    ensures var r := Filled(kind, first, start, memory, upTo);
      && r[k][HeaderSize(kind)..] == memory[k][HeaderSize(kind)..]
      && (k < upTo ==> Carries(kind, r[k], first, start + k))
      && (k >= upTo || Carries(kind, memory[k], first, start + k) ==> r[k] == memory[k])
  {
    ExpectedCarries(kind, first, start + k);
    PatchedMatches(kind, memory[k], ExpectedHeader(kind, first, start + k));
  }

  lemma OutsideTheNumber(header: Packet, n: int)
    requires |header| == 24
    ensures forall i :: 0 <= i < 24 && !(4 <= i < 8) ==> SetNumber(Mark5bNet, header, n)[i] == header[i]
  {
  }

  /** The slot is written over as a hole: of the 24 bytes of a MARK5BNET header, 0 to 3 and 8 to 23 are those of the
      first packet received; behind the header (behind the eight bytes of the number, for UDPMON) it is as it was. */
  ghost predicate WrittenOver(kind: Kind, first: Packet, was: Packet, now: Packet) {
    && |was| == |now| >= HeaderSize(kind) && |first| >= HeaderSize(kind)
    && (kind.Udpmon? ==> forall i :: 8 <= i < |now| ==> now[i] == was[i])
    && (kind.Mark5bNet? ==> forall i :: 0 <= i < 4 || 8 <= i < 24 ==> now[i] == first[i])
    && (kind.Mark5bNet? ==> forall i :: 24 <= i < |now| ==> now[i] == was[i])
  }

  /** A visited slot without the number of its place is written over, byte by byte. */
  lemma HoleGetsFirstHeader(kind: Kind, first: Packet, start: int, memory: seq<Packet>, upTo: nat, k: nat,
                            r: seq<Packet>)
    requires |first| >= HeaderSize(kind) && WellSized(kind, memory) && k < upTo && k < |memory|
    requires r == Filled(kind, first, start, memory, upTo) && !Carries(kind, memory[k], first, start + k)
    ensures WrittenOver(kind, first, memory[k], r[k])
  {
    var expected := ExpectedHeader(kind, first, start + k);
    ExpectedCarries(kind, first, start + k);
    assert r[k] == expected + memory[k][HeaderSize(kind)..];
    if kind.Mark5bNet? {
      OutsideTheNumber(first[..24], Number(kind, first) + (start + k));
    }
  }

  /** A slot carries the number of its place afterwards if and only if it was visited or carried it before. */
  lemma FilledIsNumberedIff(kind: Kind, first: Packet, start: int, memory: seq<Packet>, upTo: nat, k: nat,
                            r: seq<Packet>)
    requires |first| >= HeaderSize(kind) && WellSized(kind, memory) && k < |memory|
    requires r == Filled(kind, first, start, memory, upTo)
    ensures Carries(kind, r[k], first, start + k) <==> k < upTo || Carries(kind, memory[k], first, start + k)
    ensures k >= upTo ==> r[k] == memory[k]
  {
    FilledIsNumbered(kind, first, start, memory, upTo, k);
  }

  /** A second pass finds nothing to do. */
  lemma {:induction false} FillingIsIdempotent(kind: Kind, first: Packet, start: int, memory: seq<Packet>, upTo: nat)
    requires |first| >= HeaderSize(kind) && WellSized(kind, memory) && upTo <= |memory|
    ensures var r := Filled(kind, first, start, memory, upTo);
      && CountHoles(kind, first, start, r, upTo) == 0
      && Filled(kind, first, start, r, upTo) == r
  {
    var r := Filled(kind, first, start, memory, upTo);
    NoHolesLeft(kind, first, start, memory, upTo, r, upTo);
    forall k | 0 <= k < |r|
      ensures Filled(kind, first, start, r, upTo)[k] == r[k]
    {
      FilledIsNumbered(kind, first, start, memory, upTo, k);
      FilledIsNumbered(kind, first, start, r, upTo, k);
    }
    assert Filled(kind, first, start, r, upTo) == r;
  }

  lemma FilledHasNoHole(kind: Kind, first: Packet, start: int, memory: seq<Packet>, upTo: nat, k: nat)
    requires |first| >= HeaderSize(kind) && WellSized(kind, memory) && k < upTo <= |memory|
    ensures !HoleAt(kind, first, start, Filled(kind, first, start, memory, upTo), k)
  {
    PatchedMatches(kind, memory[k], ExpectedHeader(kind, first, start + k));
  }

  lemma {:induction false} NoHolesLeft(kind: Kind, first: Packet, start: int, memory: seq<Packet>, upTo: nat,
                                       r: seq<Packet>, n: nat)
    requires |first| >= HeaderSize(kind) && WellSized(kind, memory) && n <= upTo <= |memory|
    requires r == Filled(kind, first, start, memory, upTo)
    ensures CountHoles(kind, first, start, r, n) == 0
  {
    if n > 0 {
      NoHolesLeft(kind, first, start, memory, upTo, r, n - 1);
      FilledHasNoHole(kind, first, start, memory, upTo, n - 1);
    }
  }
}
