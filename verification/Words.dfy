/** Fixed-width integers of the C code: the conversions and the little-endian layout that the
    session worker and the IPC codec rely on. */
module Words {
  type Byte = b: int | 0 <= b < 256
  type U32 = n: int | 0 <= n < 0x1_0000_0000
  type U64 = n: int | 0 <= n < 0x1_0000_0000_0000_0000
  type I32 = n: int | -0x8000_0000 <= n < 0x8000_0000

  /** Conversion of any integer to `uint32_t`. */
  function ToU32(n: int): (r: U32) {
    n % 0x1_0000_0000
  }

  /** Conversion of a `uint32_t` to a 32-bit `int`. */
  function ToI32(n: U32): (r: I32) {
    if n < 0x8000_0000 then n else n - 0x1_0000_0000
  }

  /** `later - earlier` on `uint64_t`. */
  function Elapsed(later: U64, earlier: U64): (r: U64) {
    if later >= earlier then later - earlier else later - earlier + 0x1_0000_0000_0000_0000
  }

  lemma SignRoundTrip(n: U32, i: I32)
    ensures ToU32(ToI32(n)) == n
    ensures ToI32(ToU32(i)) == i
  {
  }

  /** Converting early changes nothing. */
  lemma ToU32Absorbs(a: int, b: int)
    ensures ToU32(ToU32(a) + b) == ToU32(a + b)
  {
    var q := a / 0x1_0000_0000;
    assert a + b == 0x1_0000_0000 * q + (ToU32(a) + b);
  }

  /** `(n + 15) & ~15` on `uint32_t`. */
  function AlignUp16(n: U32): (r: U32) {
    var sum := ToU32(n + 15);
    sum - sum % 16
  }

  lemma AlignUp16Bounds(n: U32)
    ensures var a := AlignUp16(n); a % 16 == 0 && if n <= 0xFFFF_FFF0 then n <= a < n + 16 else a == 0
  {
  }

  lemma MultiplesApart(a: int, m: int)
    requires a % 16 == 0 && m % 16 == 0 && a < m + 16
    ensures a <= m
  {
  }

  /** Aligning yields the least multiple of 16 that is not below `n`, exactly when the addition does not wrap. */
  lemma AlignUp16IsLeastMultiple(n: U32)
    ensures AlignUp16(n) % 16 == 0
    ensures (n <= AlignUp16(n) && forall m: int :: m % 16 == 0 && n <= m ==> AlignUp16(n) <= m) <==> n <= 0xFFFF_FFF0
  {
    AlignUp16Bounds(n);
    if n <= 0xFFFF_FFF0 {
      forall m: int | m % 16 == 0 && n <= m
        ensures AlignUp16(n) <= m
      {
        MultiplesApart(AlignUp16(n), m);
      }
    }
  }

  lemma AlignUp16Idempotent(n: U32)
    ensures AlignUp16(AlignUp16(n)) == AlignUp16(n)
  {
    var a := AlignUp16(n);
    assert a <= 0xFFFF_FFF0;
    assert (a + 15) % 16 == 15;
  }

  /** A 32-bit word in memory order, least significant byte first. */
  function Le32(n: U32): (b: seq<Byte>)
    ensures |b| == 4
  {
    [n % 256, n / 0x100 % 256, n / 0x1_0000 % 256, n / 0x100_0000 % 256]
  }

  function FromLe32(b: seq<Byte>): (n: U32)
    requires |b| == 4
  {
    b[0] as int + 0x100 * b[1] as int + 0x1_0000 * b[2] as int + 0x100_0000 * b[3] as int
  }

  lemma Le32RoundTrip(n: U32)
    ensures FromLe32(Le32(n)) == n
  {
    var n1 := n / 0x100;
    var n2 := n1 / 0x100;
    var n3 := n2 / 0x100;
    assert n == n % 256 + 0x100 * n1 && n1 == n1 % 256 + 0x100 * n2 && n2 == n2 % 256 + 0x100 * n3;
    assert n2 == n / 0x1_0000 && n3 == n / 0x100_0000;
  }

  /** The least significant byte comes first. */
  lemma Le32Layout(n: U32)
    ensures var b := Le32(n); n == b[0] as int + 0x100 * b[1] as int + 0x1_0000 * b[2] as int + 0x100_0000 * b[3] as int
  {
    Le32RoundTrip(n);
  }

  lemma FromLe32RoundTrip(b: seq<Byte>)
    requires |b| == 4
    ensures Le32(FromLe32(b)) == b
  {
    var n := FromLe32(b);
    assert n / 0x100 == b[1] as int + 0x100 * b[2] as int + 0x1_0000 * b[3] as int;
    assert n / 0x1_0000 == b[2] as int + 0x100 * b[3] as int;
    assert n / 0x100_0000 == b[3];
  }
}
