/** Machine words of the Go sources: 64-bit and 256-bit unsigned integers with
    explicit wrap-around, and the usual option and result types. */
module Words {
  datatype Option<+T> = None | Some(value: T)

  datatype Result<+T, +E> = Ok(value: T) | Err(error: E)

  const U64: int := 0x1_0000_0000_0000_0000
  const U256: int := 0x1_0000000000000000_0000000000000000_0000000000000000_0000000000000000
  const MAX_UINT64: int := U64 - 1

  type uint64 = x: int | 0 <= x < 0x1_0000_0000_0000_0000
  type uint256 = x: int | 0 <= x < 0x1_0000000000000000_0000000000000000_0000000000000000_0000000000000000
  type byte = x: int | 0 <= x < 256

  /** The low 64 bits of x; a value already in range is itself. */
  function Wrap64(x: int): (r: uint64)
  {
    if 0 <= x < U64 then x else x % U64
  }

  function Wrap256(x: int): (r: uint256)
  {
    if 0 <= x < U256 then x else x % U256
  }

  /** Whether `uint256.FromBig` reports an overflow: the magnitude needs more than 256 bits.
      The word it returns is `Wrap256(x)` either way (two's complement for a negative x). */
  predicate Overflows256(x: int) { x >= U256 || -x >= U256 }

  /** Smallest number of 32-byte words that hold `size` bytes. */
  function CeilWords(size: nat): (w: nat)
    ensures 32 * w >= size && (w > 0 ==> 32 * (w - 1) < size)
  {
    (size + 31) / 32
  }

  /** The overflow branch is reached exactly where `size + 31` would wrap, and still rounds up. */
  function ToWordSize(size: uint64): (w: uint64)
    ensures w == CeilWords(size)
  {
    if size > MAX_UINT64 - 31 then MAX_UINT64 / 32 + 1 else Wrap64(size + 31) / 32
  }

  function Min(x: int, y: int): int { if x <= y then x else y }

  function Max(x: int, y: int): int { if x >= y then x else y }

  lemma MulMono(a: int, x: int, y: int)
    requires 0 <= a && x <= y
    ensures a * x <= a * y
  {
  }

  lemma MulThree(a: int, b: int, c: int)
    ensures a * (b * c) == a * c * b
  {
  }

  lemma MulSplit(a: int, b: int, c: int)
    ensures (a + b) * c == a * c + b * c
    ensures c * (a + b) == c * a + c * b
  {
  }

  lemma WrapShift(a: int, k: int)
    ensures Wrap64(a + k * U64) == Wrap64(a)
  {
    assert (a + k * U64) % U64 == a % U64;
  }

  /** Wrapping the terms of a sum early or late is the same. */
  lemma WrapSum(a: int, b: int)
    ensures Wrap64(a + Wrap64(b)) == Wrap64(a + b)
  {
    var k := b / U64;
    assert Wrap64(b) == b + -k * U64;
    WrapShift(a + b, -k);
  }

  lemma WrapSums(a: int, b: int, wb: uint64, c: int, wc: uint64)
    requires wb == Wrap64(b) && wc == Wrap64(c)
    ensures Wrap64(Wrap64(a + wb) + wc) == Wrap64(a + b + c)
  {
    WrapSum(a, b);
    WrapSum(Wrap64(a + b), c);
    WrapSum(c, a + b);
  }

  lemma WrapProduct(b: int, c: int)
    ensures Wrap64(Wrap64(b) * c) == Wrap64(b * c)
  {
    var k := b / U64;
    assert b == Wrap64(b) + k * U64;
    MulSplit(Wrap64(b), k * U64, c);
    assert k * U64 * c == k * c * U64;
    WrapShift(Wrap64(b) * c, k * c);
  }

  /** What a word keeps of an integer: the one number in range that differs by a multiple of its size. */
  lemma WrapIs(x: int, k: int)
    ensures 0 <= x - k * 0x1_0000_0000_0000_0000 < 0x1_0000_0000_0000_0000
            <==> Wrap64(x) == x - k * 0x1_0000_0000_0000_0000
    ensures 0 <= x - k * U256 < U256 <==> Wrap256(x) == x - k * U256
    ensures Overflows256(x) <==> !(-U256 < x < U256)
    ensures U64 == 0x1_0000_0000_0000_0000 && U256 == U64 * U64 * U64 * U64
  {
  }
}
