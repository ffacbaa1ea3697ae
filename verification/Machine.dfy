/** Machine integers, byte strings and the small vocabulary shared by every module. */
module Machine {

  const U16_MAX := 0xffff
  const U32_MAX := 0xffff_ffff
  const U64_MAX := 0xffff_ffff_ffff_ffff
  const I32_MAX := 0x7fff_ffff

  type byte = x: int | 0 <= x < 0x100
  type u32 = x: int | 0 <= x <= 0xffff_ffff
  type u64 = x: int | 0 <= x <= 0xffff_ffff_ffff_ffff
  type i32 = x: int | -0x8000_0000 <= x <= 0x7fff_ffff
  /** The engine targets 64-bit hosts: `usize` and `u64` have the same range. */
  type usize = u64

  datatype Option<+T> = None | Some(value: T)

  datatype Result<+T, +E> = Ok(value: T) | Err(error: E)

  function Min(a: int, b: int): int { if a <= b then a else b }

  function Max(a: int, b: int): int { if a >= b then a else b }

  function SatAdd(a: u64, b: u64): u64 { if a + b > U64_MAX then U64_MAX else a + b }

  function SatSub(a: u64, b: u64): u64 { if a < b then 0 else a - b }

  function SatMul(a: u64, b: u64): u64 { if a * b > U64_MAX then U64_MAX else a * b }

  function DivCeil(a: nat, b: nat): nat
    requires b > 0
  {
    (a + b - 1) / b
  }

  /** The concatenation of a list of byte strings (or of any sequences). */
  function Flatten<T>(parts: seq<seq<T>>): seq<T> {
    if parts == [] then [] else parts[0] + Flatten(parts[1..])
  }

  lemma {:induction false} FlattenAppend<T>(a: seq<seq<T>>, b: seq<seq<T>>)
    ensures Flatten(a + b) == Flatten(a) + Flatten(b)
  {
    if a == [] {
      assert a + b == b;
    } else {
      assert (a + b)[1..] == a[1..] + b;
      FlattenAppend(a[1..], b);
    }
  }

  lemma {:induction false} FlattenSnoc<T>(a: seq<seq<T>>, x: seq<T>)
    ensures Flatten(a + [x]) == Flatten(a) + x
  {
    FlattenAppend(a, [x]);
    assert Flatten([x]) == x;
  }

  lemma {:induction false} Regroup<T>(a: seq<T>, b: seq<T>, c: seq<T>)
    ensures (a + b) + c == a + (b + c)
  {}

  lemma {:induction false} SliceOfSlice<T>(s: seq<T>, a: nat, b: nat, i: nat, j: nat)
    requires a <= b <= |s| && i <= j <= b - a
    ensures s[a..b][i..j] == s[a + i..a + j]
  {
    forall k | 0 <= k < j - i ensures s[a..b][i..j][k] == s[a + i..a + j][k] {}
  }

  function Sum(xs: seq<nat>): nat {
    if xs == [] then 0 else xs[0] + Sum(xs[1..])
  }

  lemma {:induction false} SumAppend(a: seq<nat>, b: seq<nat>)
    ensures Sum(a + b) == Sum(a) + Sum(b)
  {
    if a == [] {
      assert a + b == b;
    } else {
      assert (a + b)[1..] == a[1..] + b;
      SumAppend(a[1..], b);
    }
  }

  // ----- division -----

  lemma {:induction false} MulMono(w: nat, a: nat, b: nat)
    requires a <= b
    ensures w * a <= w * b
  {
  }

  lemma {:induction false} NoSmallMultiple(d: int, count: int)
    requires count >= 1 && d != 0
    ensures d * count >= count || d * count <= -count
  {
    if d >= 1 {
      assert d * count >= count;
    } else {
      assert d * count <= -count;
    }
  }

  /** A quotient and a remainder are the only pair that fits. */
  lemma {:induction false} DivIs(x: nat, d: nat, q: nat, r: nat)
    requires d >= 1 && r < d && x == d * q + r
    ensures x / d == q && x % d == r
  {
    var p := x / d;
    assert x == d * p + x % d;
    assert (p - q) * d == d * p - d * q;
    if p != q { NoSmallMultiple(p - q, d); }
  }

  // ----- big-endian numbers -----

  function BeUint(bytes: seq<byte>): nat {
    if bytes == [] then 0 else BeUint(bytes[..|bytes| - 1]) * 256 + bytes[|bytes| - 1] as int
  }

  /** The low `n` bytes of a number, most significant first. */
  function BeBytes(x: nat, n: nat): (b: seq<byte>)
    ensures |b| == n
    decreases n
  {
    if n == 0 then [] else BeBytes(x / 256, n - 1) + [x % 256]
  }

  function Pow256(n: nat): (r: nat)
    ensures r >= 1
  {
    if n == 0 then 1 else 256 * Pow256(n - 1)
  }

  lemma {:induction false} BeRoundTrip(x: nat, n: nat)
    requires x < Pow256(n)
    ensures BeUint(BeBytes(x, n)) == x
    decreases n
  {
    if n > 0 {
      BeRoundTrip(x / 256, n - 1);
      assert BeBytes(x, n)[..n - 1] == BeBytes(x / 256, n - 1);
    }
  }

  lemma {:induction false} BeFirst(x: nat, n: nat, m: nat)
    requires n >= 1 && m <= 256 && x < m * Pow256(n - 1)
    ensures BeBytes(x, n)[0] as int < m
    decreases n
  {
    if n == 1 {
      assert BeBytes(x, 1) == [] + [x % 256];
    } else {
      assert m * Pow256(n - 1) == 256 * (m * Pow256(n - 2));
      BeFirst(x / 256, n - 1, m);
      assert BeBytes(x, n)[0] == BeBytes(x / 256, n - 1)[0];
    }
  }

  lemma {:induction false} FourBeBytes(x: nat)
    ensures BeBytes(x, 4) == [x / 0x100_0000 % 256, x / 0x1_0000 % 256, x / 256 % 256, x % 256]
  {
    var a, b, c := x / 256, x / 256 / 256, x / 256 / 256 / 256;
    assert b == x / 0x1_0000 && c == x / 0x100_0000;
    assert BeBytes(c, 1) == [] + [c % 256];
    assert BeBytes(b, 2) == BeBytes(c, 1) + [b % 256];
    assert BeBytes(a, 3) == BeBytes(b, 2) + [a % 256];
  }
}
