/** Machine integer widths used by the event engine, and the wrap-around
    arithmetic the engine relies on (Rust's release-mode `i64` subtraction and
    `AtomicU64::fetch_add`, both of which wrap modulo 2^64). */
module Ints {

  const TWO_63: int := 0x8000_0000_0000_0000
  const TWO_64: int := 0x1_0000_0000_0000_0000

  type i64 = x: int | -0x8000_0000_0000_0000 <= x < 0x8000_0000_0000_0000
  type u64 = x: int | 0 <= x < 0x1_0000_0000_0000_0000
  type i32 = x: int | -0x8000_0000 <= x < 0x8000_0000
  type u32 = x: int | 0 <= x < 0x1_0000_0000
  type u8 = x: int | 0 <= x < 0x100

  /** Two's-complement truncation of a mathematical integer to 64 bits. */
  function WrapI64(x: int): (r: i64)
    ensures (r - x) % TWO_64 == 0
    ensures -TWO_63 <= x < TWO_63 ==> r == x
  {
    var m := (x + TWO_63) % TWO_64;
    ModOfShift(x + TWO_63, m - (x + TWO_63));
    m - TWO_63
  }

  /** `a - b` on `i64` as Rust computes it with wrapping arithmetic. */
  function WrapSub(a: i64, b: i64): i64
  {
    WrapI64(a - b)
  }

  /** `a + b` on `i64` as Rust computes it with wrapping arithmetic. */
  function WrapAdd(a: i64, b: i64): i64
  {
    WrapI64(a + b)
  }

  /** `fetch_add(1)` on an `AtomicU64`: the successor, wrapping to 0 after the maximum. */
  function NextU64(c: u64): (r: u64)
    ensures c < TWO_64 - 1 ==> r == c + 1
    ensures c == TWO_64 - 1 ==> r == 0
  {
    (c + 1) % TWO_64
  }

  /** The remainder of `y` is what is left after taking away whole multiples. */
  lemma ModOfShift(y: int, d: int)
    requires 0 <= y + d < TWO_64
    requires d % TWO_64 == 0
    ensures y % TWO_64 == y + d
  {
    var q := d / TWO_64;
    assert d == q * TWO_64;
  }

  /** Wrapping changes a value by a whole number of 2^64 steps. */
  lemma WrapOffset(x: int) returns (k: int)
    ensures WrapI64(x) == x + k * TWO_64
  {
    k := (WrapI64(x) - x) / TWO_64;
  }

  /** Two values in `i64` that differ by a multiple of 2^64 are equal. */
  lemma {:induction false} CongruentI64Equal(a: i64, b: i64, k: int)
    requires a - b == k * TWO_64
    ensures a == b
  {
  }

  /** Wrapping subtraction is undone by wrapping addition: the delta the engine
      reports always leads from the previous coordinate back to the current one. */
  lemma {:induction false} WrapAddSubInverse(prev: i64, cur: i64)
    ensures WrapAdd(prev, WrapSub(cur, prev)) == cur
  {
    var d: int := WrapSub(cur, prev);
    var k1 := WrapOffset(cur - prev);
    var k2 := WrapOffset(prev + d);
    CongruentI64Equal(WrapAdd(prev, d), cur, k1 + k2);
  }

  /** Consecutive wrapped differences add up, with wrapping, to the wrapped
      difference over the whole span. */
  lemma {:induction false} WrapSubTelescope(a: i64, b: i64, c: i64)
    ensures WrapAdd(WrapSub(b, a), WrapSub(c, b)) == WrapSub(c, a)
  {
    var d1: int := WrapSub(b, a);
    var d2: int := WrapSub(c, b);
    var k1 := WrapOffset(b - a);
    var k2 := WrapOffset(c - b);
    var k3 := WrapOffset(d1 + d2);
    var k4 := WrapOffset(c - a);
    CongruentI64Equal(WrapAdd(d1, d2), WrapSub(c, a), k1 + k2 + k3 - k4);
  }
}
