// Byte strings, little-endian integers and bounds-checked reads, as used by both binary formats.
module Bytes {
  import opened Wrappers

  type Byte = x: int | 0 <= x < 256

  function Pow256(n: nat): (p: nat)
    ensures p > 0
  {
    if n == 0 then 1 else 256 * Pow256(n - 1)
  }

  /** The n low-order bytes of v, least significant first. */
  function LE(v: nat, n: nat): (s: seq<Byte>)
    ensures |s| == n
  {
    if n == 0 then [] else [v % 256] + LE(v / 256, n - 1)
  }

  function Num(s: seq<Byte>): nat {
    if s == [] then 0 else s[0] + 256 * Num(s[1..])
  }

  /** Two's complement: the bytes an n-byte signed store of v leaves in memory. */
  function SignedLE(v: int, n: nat): (s: seq<Byte>)
    ensures |s| == n
  {
    LE(v % Pow256(n), n)
  }

  function SignedNum(s: seq<Byte>): int {
    if 2 * Num(s) < Pow256(|s|) then Num(s) else Num(s) - Pow256(|s|)
  }

  predicate FitsSigned(v: int, n: nat) { 0 - Pow256(n) <= 2 * v < Pow256(n) }

  /** n bytes from the front of bs, or nothing when the input is too short. */
  function Take(bs: seq<Byte>, n: int): (r: Option<(seq<Byte>, seq<Byte>)>)
    ensures r.Some? <==> 0 <= n <= |bs|
    ensures r.Some? ==> r.value.0 + r.value.1 == bs && |r.value.0| == n
  {
    if 0 <= n <= |bs| then Some((bs[..n], bs[n..])) else None
  }

  /** Byte k of a store is that of 256 to the k. */
  lemma {:induction false} LEByte(v: nat, n: nat, k: nat)
    requires k < n
    ensures LE(v, n)[k] == v / Pow256(k) % 256
  {
    if k > 0 {
      LEByte(v / 256, n - 1, k - 1);
      DivTwice(v, 256, Pow256(k - 1));
    }
  }

  lemma DivTwice(v: nat, a: nat, b: nat)
    requires a > 0 && b > 0
    ensures a * b > 0 && v / a / b == v / (a * b)
  {
    Below(a, b, 0);
    QuotientOfBoth(v, a, b, v / a, v % a, v / a / b, v / a % b);
  }

  lemma QuotientOfBoth(v: nat, a: nat, b: nat, x: nat, s: nat, q: nat, r: nat)
    requires s < a && r < b && v == a * x + s && x == b * q + r
    ensures a * b > 0 && v / (a * b) == q
  {
    Distribute(a, b, q, r);
    Below(a, b, r);
    ModUnique(v, a * b, q, a * r + s);
  }

  lemma Below(a: nat, b: nat, r: nat)
    requires a > 0 && r < b
    ensures a * r <= a * b - a && a * b > 0
  {
    assert a * (b - 1 - r) >= 0;
    assert a * (b - 1 - r) == a * b - a - a * r;
  }

  lemma Distribute(a: nat, b: nat, q: nat, r: nat)
    ensures a * (b * q + r) == a * b * q + a * r
  {
  }

  /** Of a signed store too, quotients rounded down. */
  lemma SignedByte(v: int, n: nat, k: nat)
    requires k < n
    ensures SignedLE(v, n)[k] == v / Pow256(k) % 256
  {
    var w := v % Pow256(n);
    LEByte(w, n, k);
    PowSplits(k, n);
    LowDigits(v, Pow256(k), Pow256(n - k - 1));
  }

  lemma {:induction false} PowSplits(k: nat, n: nat)
    requires k < n
    ensures Pow256(n) == Pow256(k) * 256 * Pow256(n - k - 1)
  {
    if k > 0 { PowSplits(k - 1, n - 1); }
  }

  /** Reducing v modulo a * 256 * c leaves its digit at a. */
  lemma LowDigits(v: int, a: nat, c: nat)
    requires a > 0 && c > 0
    ensures a * 256 * c > 0 && v % (a * 256 * c) / a % 256 == v / a % 256
  {
    var m := a * 256 * c;
    assert m > 0;
    var t, w := v / m, v % m;
    assert v == m * t + w;
    Shifted(v, w, a, 256 * c * t);
    assert a * (256 * c * t) == m * t;
    Modulo(w / a, c * t);
  }

  lemma Shifted(v: int, w: int, a: nat, d: int)
    requires a > 0 && v == a * d + w
    ensures v / a == d + w / a
  {
    assert w == a * (w / a) + w % a;
    assert a * (d + w / a) == a * d + a * (w / a);
    ModUnique(v, a, d + w / a, w % a);
  }

  lemma Modulo(x: int, d: int)
    ensures (256 * d + x) % 256 == x % 256
  {
  }

  lemma Powers()
    ensures Pow256(0) == 1 && Pow256(1) == 0x100 && Pow256(2) == 0x1_0000 && Pow256(3) == 0x100_0000
    ensures Pow256(4) == 0x1_0000_0000
  {
    assert Pow256(1) == 256 * Pow256(0) && Pow256(2) == 256 * Pow256(1) && Pow256(3) == 256 * Pow256(2);
    assert Pow256(4) == 256 * Pow256(3);
  }

  /** The bytes of a four-byte store, spelt out. */
  function FourBytes(n: nat): (s: seq<Byte>) {
    [n % 256, n / 0x100 % 256, n / 0x1_0000 % 256, n / 0x100_0000 % 256]
  }

  lemma CountBytes(n: nat)
    ensures SignedLE(n, 4) == FourBytes(n)
  {
    Powers();
    SignedByte(n, 4, 0);
    SignedByte(n, 4, 1);
    SignedByte(n, 4, 2);
    SignedByte(n, 4, 3);
  }

  lemma NoStringBytes()
    ensures SignedLE(-1, 4) == [255, 255, 255, 255]
  {
    Powers();
    SignedByte(-1, 4, 0);
    SignedByte(-1, 4, 1);
    SignedByte(-1, 4, 2);
    SignedByte(-1, 4, 3);
  }

  lemma {:induction false} NumOfLE(v: nat, n: nat)
    requires v < Pow256(n)
    ensures Num(LE(v, n)) == v
  {
    if n > 0 {
      NumOfLE(v / 256, n - 1);
      assert LE(v, n)[1..] == LE(v / 256, n - 1);
    }
  }

  lemma SignedRoundTrip(v: int, n: nat)
    requires FitsSigned(v, n)
    ensures SignedNum(SignedLE(v, n)) == v
  {
    NumOfLE(v % Pow256(n), n);
    if v < 0 {
      assert v % Pow256(n) == v + Pow256(n) by { ModShift(v, Pow256(n)); }
    } else {
      assert v % Pow256(n) == v by { ModShift(v, Pow256(n)); }
    }
  }

  lemma ModShift(v: int, m: nat)
    requires m > 0 && 0 - m <= v < m
    ensures v % m == if v < 0 then v + m else v
  {
    if v < 0 {
      assert v == m * -1 + (v + m);
      ModUnique(v, m, -1, v + m);
    }
  }

  lemma ModUnique(v: int, m: int, q: int, r: int)
    requires m > 0 && v == m * q + r && 0 <= r < m
    ensures v / m == q && v % m == r
  {
    var d := v / m - q;
    assert m * d == r - v % m by {
      assert v == m * (v / m) + v % m;
      assert m * d == m * (v / m) - m * q;
    }
    MulAtLeast(m, d);
  }

  lemma MulAtLeast(m: int, d: int)
    requires m > 0
    ensures d >= 1 ==> m * d >= m
    ensures d <= -1 ==> m * d <= 0 - m
  {
  }

  lemma TakePrefix(a: seq<Byte>, b: seq<Byte>)
    ensures Take(a + b, |a|) == Some((a, b))
  {
    assert (a + b)[..|a|] == a;
    assert (a + b)[|a|..] == b;
  }
}
