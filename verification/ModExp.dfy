/** The MODEXP precompile: its gas formulas, and its result against modular exponentiation over
    unbounded operands. `getData` is modelled with its wrapping bounds and its panics. */
module ModExp {
  import opened Words
  import opened Bytes

  const MAX_INT64: int := 0x8000_0000_0000_0000

  type Slice = s: seq<byte> | |s| < MAX_INT64 witness []

  /** A uint64 read as a signed 64-bit integer. */
  function Signed(x: uint64): int { if x < MAX_INT64 then x else x - U64 }

  function RightPad(s: seq<byte>, l: int): seq<byte> {
    if l <= |s| then s else s + Zeros(l - |s|)
  }

  /** The bytes at [start, start + size), as if the data went on with zeros forever. */
  function Window(data: seq<byte>, start: nat, size: nat): (w: seq<byte>)
    ensures |w| == size
    ensures forall i :: 0 <= i < size ==> w[i] == if start + i < |data| then data[start + i] else 0
  {
    var lo := Min(start, |data|);
    var hi := Min(start + size, |data|);
    data[lo..hi] + Zeros(size - (hi - lo))
  }

  /** None is the panic of slicing with crossed bounds. */
  function GetData(data: Slice, start: uint64, size: uint64): Option<seq<byte>> {
    var lo: int := Min(start, |data|);
    var end := Wrap64(lo + size);
    var hi: int := Min(end, |data|);
    if lo > hi then None else Some(RightPad(data[lo..hi], Signed(size)))
  }

  /** Contrary to its comment, `getData` is not safe for every size: it pads to the requested size
      exactly when that is below 2^63, and panics exactly when the clamped start plus the size
      wraps around. */
  lemma GetDataIsWindowIff(data: Slice, start: uint64, size: uint64)
    ensures GetData(data, start, size) == Some(Window(data, start, size)) <==> size < MAX_INT64
    ensures GetData(data, start, size).None? <==> Min(start, |data|) + size >= U64
  {
    var lo: int := Min(start, |data|);
    if size < MAX_INT64 {
      assert Wrap64(lo + size) == lo + size;
      assert RightPad(data[lo..Min(lo + size, |data|)], size) == Window(data, start, size);
    } else if lo + size < U64 {
      assert |GetData(data, start, size).value| <= |data|;
    } else {
      assert Wrap64(lo + size) == lo + size - U64;
    }
  }

  /** One byte of data: a size of 2^64 - 1 behind it panics, and one of 2^63 is not padded. */
  lemma GetDataOffByWords()
    ensures GetData([7], 1, MAX_UINT64).None?
    ensures GetData([7], 0, MAX_INT64) == Some([7])
  {
    GetDataIsWindowIff([7], 1, MAX_UINT64);
    assert [7][0..1] == [7];
  }

  /** The i-th of the three 32-byte lengths. */
  function Length(input: Slice, i: nat): nat
    requires i < 3
  {
    GetDataIsWindowIff(input, 32 * i, 32);
    BE(GetData(input, 32 * i, 32).value)
  }

  function Tail(input: Slice): Slice { if |input| > 96 then input[96..] else [] }

  function MultComplexity(x: nat): nat {
    if x <= 64 then x * x
    else if x <= 1024 then x * x / 4 + (96 * x - 3072)
    else x * x / 16 + (480 * x - 199680)
  }

  /** The head of the exponent that the gas function reads: at most 32 bytes. */
  function ExpHead(input: Slice): nat {
    var baseLen, expLen, tail := Length(input, 0), Length(input, 1), Tail(input);
    if |tail| <= baseLen then 0
    else if expLen > 32 then
      GetDataIsWindowIff(tail, Wrap64(baseLen), 32);
      BE(GetData(tail, Wrap64(baseLen), 32).value)
    else
      GetDataIsWindowIff(tail, Wrap64(baseLen), Wrap64(expLen));
      BE(GetData(tail, Wrap64(baseLen), Wrap64(expLen)).value)
  }

  function AdjExpLen(input: Slice): nat {
    var expLen, bits := Length(input, 1), BitLen(ExpHead(input));
    (if expLen > 32 then 8 * (expLen - 32) else 0) + (if bits > 0 then bits - 1 else 0)
  }

  /** The price before saturation. */
  function Price2565(maxLen: nat, adj: nat): nat {
    var words := (maxLen + 7) / 8;
    words * words * Max(adj, 1) / 3
  }

  function Price198(maxLen: nat, adj: nat): nat { MultComplexity(maxLen) * Max(adj, 1) / 20 }

  function Gas2565(maxLen: nat, adj: nat): uint64 {
    var gas := Price2565(maxLen, adj);
    if gas > MAX_UINT64 then MAX_UINT64 else if gas < 200 then 200 else gas
  }

  function Gas198(maxLen: nat, adj: nat): uint64 {
    var gas := Price198(maxLen, adj);
    if gas > MAX_UINT64 then MAX_UINT64 else gas
  }

  function RequiredGas(input: Slice, eip2565: bool): uint64 {
    var maxLen := Max(Length(input, 0), Length(input, 2));
    if eip2565 then Gas2565(maxLen, AdjExpLen(input)) else Gas198(maxLen, AdjExpLen(input))
  }

  function Pow(b: nat, e: nat): nat { if e == 0 then 1 else b * Pow(b, e - 1) }

  /** The operands as the input spells them, with lengths of any size. */
  function BaseOf(input: Slice): nat { BE(Window(Tail(input), 0, Length(input, 0))) }

  function ExpOf(input: Slice): nat { BE(Window(Tail(input), Length(input, 0), Length(input, 1))) }

  function ModOf(input: Slice): nat {
    BE(Window(Tail(input), Length(input, 0) + Length(input, 1), Length(input, 2)))
  }

  /** The result on operands already read; `modLen` is the length to pad to. */
  function Remainder(base: nat, exp: nat, mod: nat, modLen: int): seq<byte> {
    if mod == 0 then LeftPad([], modLen)
    else if BitLen(base) == 1 then LeftPad(MinBytes(base % mod), modLen)
    else LeftPad(MinBytes(Pow(base, exp) % mod), modLen)
  }

  function RunOn(tail: Slice, baseLen: uint64, expLen: uint64, modLen: uint64): Option<seq<byte>> {
    if baseLen == 0 && modLen == 0 then Some([])
    else
      var base := GetData(tail, 0, baseLen);
      var exp := GetData(tail, baseLen, expLen);
      var mod := GetData(tail, Wrap64(baseLen + expLen), modLen);
      if base.None? || exp.None? || mod.None? then None
      else Some(Remainder(BE(base.value), BE(exp.value), BE(mod.value), Signed(modLen)))
  }

  /** None is a panic. */
  function Run(input: Slice): Option<seq<byte>> {
    RunOn(Tail(input), Wrap64(Length(input, 0)), Wrap64(Length(input, 1)), Wrap64(Length(input, 2)))
  }

  /** Modular exponentiation of the operands in exactly as many bytes as the modulus has; zero when
      the modulus is. */
  ghost predicate IsModExp(input: Slice, out: seq<byte>) {
    && |out| == Length(input, 2)
    && BE(out) == if ModOf(input) == 0 then 0 else Pow(BaseOf(input), ExpOf(input)) % ModOf(input)
  }
}
