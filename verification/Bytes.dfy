/** Fixed-width integers in memory, on the little-endian host the recorder runs on. */
module Bytes {

  type byte = x: int | 0 <= x < 256

  /** The number of values that fit in k bytes. */
  function Pow256(k: nat): (r: nat)
    ensures r >= 1
  {
    if k == 0 then 1 else 256 * Pow256(k - 1)
  }

  function FromLE(b: seq<byte>): nat {
    if |b| == 0 then 0 else b[0] + 256 * FromLE(b[1..])
  }

  /** The i-th byte of a number, least significant first. */
  function Digit(n: nat, i: nat): byte {
    if i == 0 then n % 256 else Digit(n / 256, i - 1)
  }

  function ToLE(n: nat, k: nat): (b: seq<byte>)
    ensures |b| == k
  {
    seq(k, i requires 0 <= i < k => Digit(n, i))
  }

  /** What the be64toh family does to the bytes of a word on a little-endian host. */
  function Swap(b: seq<byte>): (r: seq<byte>)
    ensures |r| == |b|
  {
    seq(|b|, i requires 0 <= i < |b| => b[|b| - 1 - i])
  }

  function FromBE(b: seq<byte>): nat {
    FromLE(Swap(b))
  }

  function ToBE(n: nat, k: nat): (b: seq<byte>)
    ensures |b| == k
  {
    Swap(ToLE(n, k))
  }

  lemma SwapTwice(b: seq<byte>)
    ensures Swap(Swap(b)) == b
  {
  }

  lemma ModularDigit(n: nat, m: nat)
    requires m > 0
    ensures n % (256 * m) == n % 256 + 256 * (n / 256 % m)
  {
    var q, r := n / 256 / m, n / 256 % m;
    assert n / 256 == q * m + r;
    assert n == 256 * (q * m + r) + n % 256;
    assert 256 * (q * m + r) == q * (256 * m) + 256 * r;
    assert n == q * (256 * m) + (256 * r + n % 256);
    RemainderUnique(n, 256 * m, q, 256 * r + n % 256);
  }

  /** Division with remainder has only one answer. */
  lemma RemainderUnique(n: int, d: int, q: int, r: int)
    requires d > 0 && n == q * d + r && 0 <= r < d
    ensures n / d == q && n % d == r
  {
    var q' := n / d;
    var k := q - q';
    assert k * d == q * d - q' * d;
    assert k * d == n % d - r;
    if k != 0 {
      AtLeastOnce(if k > 0 then k else -k, d);
    }
  }

  lemma AtLeastOnce(k: int, d: int)
    requires k >= 1 && d > 0
    ensures k * d >= d
  {
  }

  lemma ExactQuotient(k: nat, s: int)
    requires s > 0
    ensures k * s / s == k
  {
    RemainderUnique(k * s, s, k, 0);
  }

  /** Storing a number in k bytes and reading it back gives it modulo 256^k. */
  lemma {:induction false} ReadBackLE(n: nat, k: nat)
    ensures FromLE(ToLE(n, k)) == n % Pow256(k)
  {
    if k > 0 {
      ReadBackLE(n / 256, k - 1);
      assert ToLE(n, k)[1..] == ToLE(n / 256, k - 1);
      ModularDigit(n, Pow256(k - 1));
    }
  }

  lemma ReadBackBE(n: nat, k: nat)
    ensures FromBE(ToBE(n, k)) == n % Pow256(k)
  {
    SwapTwice(ToLE(n, k));
    ReadBackLE(n, k);
  }

  lemma {:induction false} FitsLE(b: seq<byte>)
    ensures FromLE(b) < Pow256(|b|)
  {
    if |b| > 0 {
      FitsLE(b[1..]);
    }
  }
}
