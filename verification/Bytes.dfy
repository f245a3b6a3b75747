/** Integers in memory on a little-endian machine. */
module Bytes {
  import opened Common

  function Pow256(k: nat): (p: nat)
    ensures p > 0
  {
    if k == 0 then 1 else 256 * Pow256(k - 1)
  }

  function Blank(k: nat): (s: seq<byte>)
    ensures |s| == k
  {
    seq(k, _ => 0)
  }

  /** `n` written over the blank bytes, the least significant first; higher bits are lost, as in a cast. */
  function Fill(n: nat, blank: seq<byte>): (s: seq<byte>)
    ensures |s| == |blank|
    decreases |blank|
  {
    if blank == [] then [] else [n % 256] + Fill(n / 256, blank[1..])
  }

  /** `n` as `k` bytes. */
  function Put(n: nat, k: nat): (s: seq<byte>)
    ensures |s| == k
  {
    Fill(n, Blank(k))
  }

  function Get(s: seq<byte>): (n: nat)
    ensures n < Pow256(|s|)
  {
    if s == [] then 0 else s[0] + 256 * Get(s[1..])
  }

  lemma {:induction false} GetFill(n: nat, blank: seq<byte>)
    requires n < Pow256(|blank|)
    ensures Get(Fill(n, blank)) == n
    decreases |blank|
  {
    if blank != [] {
      GetFill(n / 256, blank[1..]);
      assert Fill(n, blank)[1..] == Fill(n / 256, blank[1..]);
    }
  }

  lemma GetPut(n: nat, k: nat)
    requires n < Pow256(k)
    ensures Get(Put(n, k)) == n
  {
    GetFill(n, Blank(k));
  }

  /** Byte `i` is the digit of weight 256 to the `i`: the least significant byte comes first. */
  lemma {:induction false} FillDigit(n: nat, blank: seq<byte>, i: nat)
    requires i < |blank|
    ensures Fill(n, blank)[i] == n / Pow256(i) % 256
    decreases |blank|
  {
    if i > 0 {
      FillDigit(n / 256, blank[1..], i - 1);
      DivTwice(n, Pow256(i - 1));
    }
  }

  lemma DivTwice(n: nat, p: nat)
    requires p > 0
    ensures n / 256 / p == n / (256 * p)
  {
    var a := n / 256;
    var d, e := a / p, a % p;
    Parts(a, p, d, e);
    Grouped(p, d, 256 * p);
    DivBy(256 * p, d, 256 * e + n % 256);
  }

  lemma Parts(a: nat, p: nat, d: nat, e: nat)
    requires p > 0 && d == a / p && e == a % p
    ensures a == p * d + e && e < p
  {
  }

  lemma Grouped(p: nat, q: nat, m: nat)
    requires m == 256 * p
    ensures m * q == 256 * (p * q)
  {
  }

  lemma TimesAtLeast(p: nat, a: nat, b: nat)
    requires a < b
    ensures p * a + p <= p * b
    decreases b - a
  {
    if a + 1 < b {
      TimesAtLeast(p, a + 1, b);
    }
    assert p * (a + 1) == p * a + p;
  }

  lemma DivBy(p: nat, q: nat, r: nat)
    requires 0 <= r < p
    ensures (p * q + r) / p == q
  {
    var d := (p * q + r) / p;
    if d < q {
      TimesAtLeast(p, d, q);
    } else if d > q {
      TimesAtLeast(p, q, d);
    }
  }

  lemma PutDigit(n: nat, k: nat, i: nat)
    requires i < k
    ensures Put(n, k)[i] == n / Pow256(i) % 256
  {
    FillDigit(n, Blank(k), i);
  }

  lemma Pow4()
    ensures Pow256(4) == 0x1_0000_0000
  {
  }

  lemma Pow8()
    ensures Pow256(8) == 0x1_0000_0000_0000_0000
  {
    assert Pow256(8) == 256 * 256 * 256 * 256 * Pow256(4);
  }

  type u32 = n: int | 0 <= n < 0x1_0000_0000
  type u64 = n: int | 0 <= n < 0x1_0000_0000_0000_0000
  type i32 = n: int | -0x8000_0000 <= n < 0x8000_0000
  type i64 = n: int | -0x8000_0000_0000_0000 <= n < 0x8000_0000_0000_0000

  function Put32(n: i32): (s: seq<byte>)
    ensures |s| == 4
  {
    Put(if n < 0 then n + 0x1_0000_0000 else n, 4)
  }

  function Get32(s: seq<byte>): i32
    requires |s| == 4
  {
    Pow4();
    var n := Get(s);
    if n < 0x8000_0000 then n else n - 0x1_0000_0000
  }

  function Put64(n: i64): (s: seq<byte>)
    ensures |s| == 8
  {
    Put(if n < 0 then n + 0x1_0000_0000_0000_0000 else n, 8)
  }

  function Get64(s: seq<byte>): i64
    requires |s| == 8
  {
    Pow8();
    var n := Get(s);
    if n < 0x8000_0000_0000_0000 then n else n - 0x1_0000_0000_0000_0000
  }

  type i16 = n: int | -0x8000 <= n < 0x8000

  function Put16(n: i16): (s: seq<byte>)
    ensures |s| == 2
  {
    Put(if n < 0 then n + 0x1_0000 else n, 2)
  }

  lemma Pow2()
    ensures Pow256(2) == 0x1_0000
  {
  }

  function Get16(s: seq<byte>): i16
    requires |s| == 2
  {
    Pow2();
    var n := Get(s);
    if n < 0x8000 then n else n - 0x1_0000
  }

  lemma Get16Put16(n: i16)
    ensures Get16(Put16(n)) == n
  {
    Pow2();
    GetPut(if n < 0 then n + 0x1_0000 else n, 2);
  }

  lemma Get32Put32(n: i32)
    ensures Get32(Put32(n)) == n
  {
    Pow4();
    GetPut(if n < 0 then n + 0x1_0000_0000 else n, 4);
  }

  lemma Get64Put64(n: i64)
    ensures Get64(Put64(n)) == n
  {
    Pow8();
    GetPut(if n < 0 then n + 0x1_0000_0000_0000_0000 else n, 8);
  }

  lemma GetPutU32(n: u32)
    ensures Get(Put(n, 4)) == n
  {
    Pow4();
    GetPut(n, 4);
  }

  lemma GetPutU64(n: u64)
    ensures Get(Put(n, 8)) == n
  {
    Pow8();
    GetPut(n, 8);
  }
}
