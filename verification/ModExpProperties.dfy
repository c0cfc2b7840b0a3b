/** The gas estimate of MODEXP bounds the work `Run` does, and `Run` computes modular exponentiation
    on every input whose EIP-2565 gas is not saturated. */
module ModExpProperties {
  import opened Words
  import opened Bytes
  import opened ModExp

  /** The exponent's leading bytes are its head, whatever its length. */
  lemma HeadIsPrefix(input: Slice)
    ensures var expLen := Length(input, 1);
            ExpHead(input) == BE(Window(Tail(input), Length(input, 0), Min(expLen, 32)))
  {
    var baseLen, expLen, tail := Length(input, 0), Length(input, 1), Tail(input);
    if |tail| <= baseLen {
      assert Window(tail, baseLen, Min(expLen, 32)) == Zeros(Min(expLen, 32));
      BEZeros(Min(expLen, 32));
    } else {
      if expLen > 32 {
        GetDataIsWindowIff(tail, baseLen, 32);
      } else {
        GetDataIsWindowIff(tail, baseLen, expLen);
      }
    }
  }

  /** A window longer than 32 bytes is its head, shifted, and the rest. */
  lemma WindowSplits(tail: seq<byte>, start: nat, size: nat)
    requires size > 32
    ensures var head, rest := Window(tail, start, 32), Window(tail, start + 32, size - 32);
            BE(Window(tail, start, size)) == BE(head) * Pow2(8 * (size - 32)) + BE(rest)
  {
    var head, rest := Window(tail, start, 32), Window(tail, start + 32, size - 32);
    assert Window(tail, start, size) == head + rest;
    BEConcat(head, rest);
  }

  lemma ShiftedLength(h: nat, bits: nat, low: nat, whole: nat)
    requires whole == h * Pow2(bits) + low && low < Pow2(bits)
    ensures if h > 0 then BitLen(whole) == BitLen(h) + bits else BitLen(whole) <= bits
  {
    if h == 0 {
      assert whole == low;
      BitLenBound(low, bits);
    } else {
      var shifted := h * Pow2(bits) + low;
      assert BitLen(shifted) == BitLen(h) + bits by { BitLenShift(h, bits, low); }
    }
  }

  /** A window longer than 32 bytes has at least the bits of its tail, and the bits of its head on top
      when the head is not zero. */
  lemma LongExponent(tail: seq<byte>, start: nat, size: nat)
    requires size > 32
    ensures var head, whole := BE(Window(tail, start, 32)), BE(Window(tail, start, size));
            if head > 0 then BitLen(whole) == BitLen(head) + 8 * (size - 32) else BitLen(whole) <= 8 * (size - 32)
  {
    var head, rest := Window(tail, start, 32), Window(tail, start + 32, size - 32);
    var h, low, bits := BE(head), BE(rest), 8 * (size - 32);
    WindowSplits(tail, start, size);
    assert low < Pow2(bits) by { BEBound(rest); }
    ShiftedLength(h, bits, low, BE(Window(tail, start, size)));
  }

  /** The adjusted exponent length is never below the bit length of the exponent less one, and equal
      to it (or zero for a zero exponent) whenever the whole exponent is in the head or the head is
      not zero. */
  lemma AdjustedLengthIsSound(input: Slice)
    ensures AdjExpLen(input) >= BitLen(ExpOf(input)) - 1
    ensures ExpHead(input) != 0 || Length(input, 1) <= 32
            ==> AdjExpLen(input) == Max(BitLen(ExpOf(input)) - 1, 0)
  {
    var baseLen, expLen, tail := Length(input, 0), Length(input, 1), Tail(input);
    HeadIsPrefix(input);
    if expLen > 32 {
      LongExponent(tail, baseLen, expLen);
      assert AdjExpLen(input) == 8 * (expLen - 32) + Max(BitLen(ExpHead(input)) - 1, 0);
    } else {
      assert ExpHead(input) == ExpOf(input);
    }
  }

  lemma MulBoth(a: nat, b: nat, c: nat, d: nat)
    requires a <= b && c <= d
    ensures a * c <= b * d
  {
    MulMono(a, c, d);
    MulMono(d, a, b);
  }

  lemma DivMono(a: nat, b: nat, k: nat)
    requires a <= b && k > 0
    ensures a / k <= b / k
  {
    if a / k > b / k {
      MulMono(k, b / k + 1, a / k);
    }
  }

  /** Both prices grow with the operand size and with the adjusted exponent length. */
  lemma Price2565IsMonotone(x: nat, y: nat, a: nat, b: nat)
    requires x <= y && a <= b
    ensures Price2565(x, a) <= Price2565(y, b)
    ensures Gas2565(x, a) <= Gas2565(y, b)
  {
    var u, v := (x + 7) / 8, (y + 7) / 8;
    MulBoth(u, v, u, v);
    MulBoth(u * u, v * v, Max(a, 1), Max(b, 1));
    DivMono(u * u * Max(a, 1), v * v * Max(b, 1), 3);
  }

  lemma SquareMono(x: nat, y: nat)
    requires x <= y
    ensures x * x <= y * y
  {
    MulBoth(x, y, x, y);
  }

  /** The multiplication complexity is monotone across both of its breakpoints. */
  lemma MultComplexityIsMonotone(x: nat, y: nat)
    requires x <= y
    ensures MultComplexity(x) <= MultComplexity(y)
  {
    SquareMono(x, y);
    if x <= 64 {
      SquareMono(x, 64);
      if y > 64 { SquareMono(64, y); }
      if y > 1024 { SquareMono(1024, y); }
    } else if x <= 1024 && y > 1024 {
      SquareMono(x, 1024);
      SquareMono(1024, y);
    }
  }

  /** It never exceeds the square it approximates. */
  lemma MultComplexityBelowSquare(x: nat)
    ensures MultComplexity(x) <= x * x
  {
    if 64 < x <= 1024 {
      // 3 x^2 - 384 x + 12288 = 3 (x - 64)^2
      assert 3 * ((x - 64) * (x - 64)) == 3 * (x * x) - 384 * x + 12288;
      MulMono(x - 64, 0, x - 64);
    } else if x > 1024 {
      // 15 x^2 - 7680 x + 3194880 = 15 (x - 256)^2 + 2211840
      assert 15 * ((x - 256) * (x - 256)) == 15 * (x * x) - 7680 * x + 983040;
      MulMono(x - 256, 0, x - 256);
    }
  }

  lemma Price198IsMonotone(x: nat, y: nat, a: nat, b: nat)
    requires x <= y && a <= b
    ensures Price198(x, a) <= Price198(y, b)
    ensures Gas198(x, a) <= Gas198(y, b)
  {
    MultComplexityIsMonotone(x, y);
    MulBoth(MultComplexity(x), MultComplexity(y), Max(a, 1), Max(b, 1));
    DivMono(MultComplexity(x) * Max(a, 1), MultComplexity(y) * Max(b, 1), 20);
  }

  /** The gas charged covers the size of the exponent that is actually processed. */
  lemma GasCoversExponent(input: Slice)
    ensures var maxLen := Max(Length(input, 0), Length(input, 2));
            var trueAdj := Max(BitLen(ExpOf(input)) - 1, 0);
            && RequiredGas(input, true) >= Gas2565(maxLen, trueAdj)
            && RequiredGas(input, false) >= Gas198(maxLen, trueAdj)
            && (ExpHead(input) != 0 ==> RequiredGas(input, true) == Gas2565(maxLen, trueAdj)
                                        && RequiredGas(input, false) == Gas198(maxLen, trueAdj))
  {
    var maxLen := Max(Length(input, 0), Length(input, 2));
    var trueAdj := Max(BitLen(ExpOf(input)) - 1, 0);
    AdjustedLengthIsSound(input);
    Price2565IsMonotone(maxLen, maxLen, trueAdj, AdjExpLen(input));
    Price198IsMonotone(maxLen, maxLen, trueAdj, AdjExpLen(input));
  }

  /** With a zero head, the adjusted exponent length is eight for each byte beyond the head. */
  lemma AdjustedOfZeroHead(input: Slice)
    requires ExpHead(input) == 0
    ensures AdjExpLen(input) == if Length(input, 1) > 32 then 8 * (Length(input, 1) - 32) else 0
  {
  }

  /** No EIP-2565 call is cheaper than 200, and the empty one costs that. */
  lemma FloorIs(input: Slice)
    ensures RequiredGas(input, true) >= 200
    ensures Length(input, 0) == 0 && Length(input, 2) == 0 ==> RequiredGas(input, true) == 200
  {
    if Length(input, 0) == 0 && Length(input, 2) == 0 {
      assert Price2565(0, AdjExpLen(input)) == 0;
    }
  }

  /** The EIP-2565 price in numbers: with `w` words of eight bytes in the longer operand, a third of the
      square of that times the adjusted exponent length, but never under 200, and capped at a word. */
  lemma Gas2565Is(input: Slice, w: nat)
    requires 8 * (w - 1) < Max(Length(input, 0), Length(input, 2)) <= 8 * w
    ensures var g, work := RequiredGas(input, true), w * w * Max(AdjExpLen(input), 1);
            && 200 <= g <= 0xFFFF_FFFF_FFFF_FFFF
            && (200 < g < 0xFFFF_FFFF_FFFF_FFFF ==> 3 * g <= work < 3 * g + 3)
            && (g == 200 ==> work < 603)
            && (g == 0xFFFF_FFFF_FFFF_FFFF ==> 3 * g <= work)
  {
  }

  /** The EIP-198 complexity of an operand length, piece by piece, as the integer it is rounded down to. */
  predicate IsComplexity(x: nat, c: nat) {
    if x <= 64 then c == x * x
    else if x <= 1024 then 4 * c <= x * x + 384 * x - 12288 < 4 * c + 4
    else 16 * c <= x * x + 7680 * x - 3194880 < 16 * c + 16
  }

  lemma ComplexityIs(x: nat, c: nat)
    ensures IsComplexity(x, c) <==> c == MultComplexity(x)
  {
    var s := x * x;
    if x <= 64 {
    } else if x <= 1024 {
      assert MultComplexity(x) == s / 4 + (96 * x - 3072);
    } else {
      assert MultComplexity(x) == s / 16 + (480 * x - 199680);
    }
  }

  /** The EIP-198 price in numbers: a twentieth of the complexity times the adjusted exponent length. */
  lemma Gas198Is(input: Slice, c: nat)
    requires IsComplexity(Max(Length(input, 0), Length(input, 2)), c)
    ensures var g, work := RequiredGas(input, false), c * Max(AdjExpLen(input), 1);
            && g <= 0xFFFF_FFFF_FFFF_FFFF
            && (g < 0xFFFF_FFFF_FFFF_FFFF ==> 20 * g <= work < 20 * g + 20)
            && (g == 0xFFFF_FFFF_FFFF_FFFF ==> 20 * g <= work)
  {
    ComplexityIs(Max(Length(input, 0), Length(input, 2)), c);
  }

  lemma {:induction false} PowAdd(b: nat, x: nat, y: nat)
    ensures Pow(b, x + y) == Pow(b, x) * Pow(b, y)
    ensures Pow(b, 1) == b && Pow(b, 0) == 1
  {
    assert Pow(b, 1) == b * Pow(b, 0);
    if y == 0 {
    } else {
      PowAdd(b, x, y - 1);
      MulThree(Pow(b, x), b, Pow(b, y - 1));
      MulThree(b, Pow(b, x), Pow(b, y - 1));
    }
  }

  lemma {:induction false} PowOfOne(e: nat)
    ensures Pow(1, e) == 1
  {
    if e == 0 {
    } else {
      PowOfOne(e - 1);
    }
  }

  /** The result is the remainder, padded to exactly the length of the modulus; the shortcut for a
      base of one included. */
  lemma ResultIsRemainder(base: nat, exp: nat, mod: nat, modLen: nat)
    requires mod < Pow2(8 * modLen)
    ensures |Remainder(base, exp, mod, modLen)| == modLen
    ensures BE(Remainder(base, exp, mod, modLen)) == if mod == 0 then 0 else Pow(base, exp) % mod
  {
    if mod > 0 {
      if BitLen(base) == 1 {
        BitLenIs(base);
        PowOfOne(exp);
        MinBytesLength(base % mod, modLen);
      } else {
        MinBytesLength(Pow(base, exp) % mod, modLen);
      }
    }
  }

  /** Lengths that survive their truncation to 64 bits and never panic. */
  predicate Fits(input: Slice) {
    && Length(input, 0) < MAX_INT64 && Length(input, 1) < MAX_INT64 && Length(input, 2) < MAX_INT64
  }

  lemma RunOnReadsWindows(tail: Slice, baseLen: nat, expLen: nat, modLen: nat)
    requires baseLen < MAX_INT64 && expLen < MAX_INT64 && modLen < MAX_INT64
    requires baseLen != 0 || modLen != 0
    ensures RunOn(tail, baseLen, expLen, modLen)
         == Some(Remainder(BE(Window(tail, 0, baseLen)), BE(Window(tail, baseLen, expLen)),
                           BE(Window(tail, baseLen + expLen, modLen)), modLen))
  {
    GetDataIsWindowIff(tail, 0, baseLen);
    GetDataIsWindowIff(tail, baseLen, expLen);
    GetDataIsWindowIff(tail, baseLen + expLen, modLen);
    var base, exp := Window(tail, 0, baseLen), Window(tail, baseLen, expLen);
    var mod := Window(tail, baseLen + expLen, modLen);
    assert GetData(tail, 0, baseLen) == Some(base) && GetData(tail, baseLen, expLen) == Some(exp);
    assert GetData(tail, Wrap64(baseLen + expLen), modLen) == Some(mod);
    assert Signed(modLen) == modLen;
  }

  lemma RunReadsOperands(input: Slice)
    requires Fits(input) && (Length(input, 0) != 0 || Length(input, 2) != 0)
    ensures Run(input) == Some(Remainder(BaseOf(input), ExpOf(input), ModOf(input), Length(input, 2)))
  {
    var tail, b, e, m := Tail(input), Length(input, 0), Length(input, 1), Length(input, 2);
    var base, exp, mod := BaseOf(input), ExpOf(input), ModOf(input);
    assert base == BE(Window(tail, 0, b)) && exp == BE(Window(tail, b, e)) && mod == BE(Window(tail, b + e, m));
    assert Run(input) == RunOn(tail, b, e, m);
    RunOnReadsWindows(tail, b, e, m);
  }

  lemma RunIsModExp(input: Slice)
    requires Fits(input)
    ensures Run(input).Some? && IsModExp(input, Run(input).value)
  {
    var modLen := Length(input, 2);
    if Length(input, 0) != 0 || modLen != 0 {
      RunReadsOperands(input);
      BEBound(Window(Tail(input), Length(input, 0) + Length(input, 1), modLen));
      ResultIsRemainder(BaseOf(input), ExpOf(input), ModOf(input), modLen);
    } else {
      assert BE(Window(Tail(input), Length(input, 0) + Length(input, 1), 0)) == 0;
    }
  }

  /** An EIP-2565 price that fits a word keeps every length small, or there is nothing to compute. */
  lemma UnsaturatedIsSmall(maxLen: nat, adj: nat)
    requires Price2565(maxLen, adj) < MAX_UINT64 && maxLen > 0
    ensures maxLen < 0x10_0000_0000 && adj < 3 * U64
  {
    var words, a := (maxLen + 7) / 8, Max(adj, 1);
    assert words * words * a < 3 * U64;
    SquareMono(1, words);
    MulBoth(1, words * words, a, a);
    MulBoth(words * words, words * words, 1, a);
    if words > 0x2_0000_0000 { SquareMono(0x2_0000_0000, words); }
  }

  /** For every input whose EIP-2565 gas is below saturation, `Run` does not panic and returns
      the modular exponentiation of the operands as the input spells them. */
  lemma AffordableRunIsExact(input: Slice)
    requires RequiredGas(input, true) < MAX_UINT64
    ensures Run(input).Some? && IsModExp(input, Run(input).value)
  {
    var maxLen := Max(Length(input, 0), Length(input, 2));
    if maxLen > 0 {
      UnsaturatedIsSmall(maxLen, AdjExpLen(input));
      RunIsModExp(input);
    }
  }

  lemma SingleByte(b: byte)
    ensures BE([b]) == b
  {
    assert [b][..0] == [];
  }

  /** The longest there is room for behind the lengths. */
  const MAX_TAIL: int := MAX_INT64 - 97

  ghost predicate HasLengths(input: Slice, baseLen: nat, expLen: nat, modLen: nat) {
    Length(input, 0) == baseLen && Length(input, 1) == expLen && Length(input, 2) == modLen
  }

  ghost predicate RunIsExact(input: Slice) { Run(input).Some? && IsModExp(input, Run(input).value) }

  /** The EIP-198 price of operands of these lengths, at its least: when the head of the exponent is zero. */
  function LeastPrice198(baseLen: nat, expLen: nat, modLen: nat): nat {
    Price198(Max(baseLen, modLen), if expLen > 32 then 8 * (expLen - 32) else 0)
  }

  /** The lengths survive their truncation as far as it matters: the modulus is read where it is, or
      is empty, or is read past any data, where it is zero as it should be. */
  predicate TruncatesWell(baseLen: nat, expLen: nat, modLen: nat) {
    && baseLen + Wrap64(expLen) < U64
    && (modLen == 0 || expLen < U64 || baseLen + Wrap64(expLen) >= MAX_TAIL)
  }

  /** Lengths whose price may be below saturation: that of the modulus and the base are small, and both
      at most one if that of the exponent is truncated. */
  lemma CheapIsSmall(baseLen: nat, expLen: nat, modLen: nat)
    requires LeastPrice198(baseLen, expLen, modLen) < MAX_UINT64 && Max(baseLen, modLen) > 0
    ensures baseLen < 0x100_0000_0000 && modLen < 0x100_0000_0000 && expLen < 3 * U64
    ensures expLen >= U64 ==> baseLen <= 1 && modLen <= 1
  {
    var x, a := Max(baseLen, modLen), Max(if expLen > 32 then 8 * (expLen - 32) else 0, 1);
    var c := MultComplexity(x);
    assert c * a < 20 * U64;
    MultComplexityIsMonotone(1, x);
    MulBoth(1, c, a, a);
    MulBoth(c, c, 1, a);
    if x >= 0x100_0000_0000 { MultComplexityIsMonotone(0x100_0000_0000, x); }
    if expLen >= U64 && x >= 2 {
      MultComplexityIsMonotone(2, x);
      MulBoth(4, c, 8 * (U64 - 32), a);
    }
  }

  lemma NoModulusIs(tail: Slice, at: nat, modLen: nat)
    requires modLen == 0 || |tail| <= at
    ensures BE(Window(tail, at, modLen)) == 0
  {
    assert Window(tail, at, modLen) == Zeros(modLen);
    BEZeros(modLen);
  }

  lemma RunOnIs(tail: Slice, baseLen: uint64, expLen: uint64, modLen: uint64)
    requires baseLen != 0 || modLen != 0
    requires GetData(tail, 0, baseLen).Some? && GetData(tail, baseLen, expLen).Some?
    requires GetData(tail, Wrap64(baseLen + expLen), modLen).Some?
    ensures var base, exp := GetData(tail, 0, baseLen).value, GetData(tail, baseLen, expLen).value;
            var mod := GetData(tail, Wrap64(baseLen + expLen), modLen).value;
            RunOn(tail, baseLen, expLen, modLen) == Some(Remainder(BE(base), BE(exp), BE(mod), Signed(modLen)))
  {
  }

  /** A modulus that is empty or past the data is zero, wherever it is looked for there. */
  lemma NoModulusRuns(tail: Slice, baseLen: uint64, expLen: uint64, modLen: uint64)
    requires baseLen < MAX_INT64 && modLen < MAX_INT64 && (baseLen != 0 || modLen != 0)
    requires baseLen + expLen < U64 && (modLen == 0 || |tail| <= baseLen + expLen)
    ensures var r := RunOn(tail, baseLen, expLen, modLen); r.Some? && |r.value| == modLen && BE(r.value) == 0
  {
    var at := baseLen + expLen;
    GetDataIsWindowIff(tail, 0, baseLen);
    GetDataIsWindowIff(tail, baseLen, expLen);
    GetDataIsWindowIff(tail, at, modLen);
    NoModulusIs(tail, at, modLen);
    RunOnIs(tail, baseLen, expLen, modLen);
  }

  lemma NoModulusIsExact(input: Slice)
    requires Length(input, 0) < MAX_INT64 && Length(input, 2) < MAX_INT64
    requires Length(input, 0) != 0 || Length(input, 2) != 0
    requires Length(input, 0) + Wrap64(Length(input, 1)) < U64
    requires Length(input, 2) == 0 || |Tail(input)| <= Length(input, 0) + Wrap64(Length(input, 1))
    ensures RunIsExact(input)
  {
    var tail, b, e, m := Tail(input), Length(input, 0), Length(input, 1), Length(input, 2);
    NoModulusRuns(tail, b, Wrap64(e), m);
    assert Run(input) == RunOn(tail, b, Wrap64(e), m);
    assert Wrap64(e) <= e;
    NoModulusIs(tail, b + e, m);
  }

  lemma NothingIsExact(input: Slice)
    requires Length(input, 0) == 0 && Length(input, 2) == 0
    ensures RunIsExact(input)
  {
    assert BE(Window(Tail(input), Length(input, 1), 0)) == 0;
  }

  lemma LeastIsLeast(input: Slice)
    ensures RequiredGas(input, false) < MAX_UINT64 ==>
      LeastPrice198(Length(input, 0), Length(input, 1), Length(input, 2)) < MAX_UINT64
  {
    var b, e, m := Length(input, 0), Length(input, 1), Length(input, 2);
    Price198IsMonotone(Max(b, m), Max(b, m), if e > 32 then 8 * (e - 32) else 0, AdjExpLen(input));
  }

  lemma TruncatesWellIsExact(input: Slice)
    requires TruncatesWell(Length(input, 0), Length(input, 1), Length(input, 2))
    requires RequiredGas(input, false) < MAX_UINT64
    ensures RunIsExact(input)
  {
    var b, e, m := Length(input, 0), Length(input, 1), Length(input, 2);
    if b == 0 && m == 0 {
      NothingIsExact(input);
    } else {
      LeastIsLeast(input);
      CheapIsSmall(b, e, m);
      if e < MAX_INT64 {
        RunIsModExp(input);
      } else {
        NoModulusIsExact(input);
      }
    }
  }

  lemma LengthIs(input: Slice, i: nat, word: seq<byte>)
    requires i < 3 && |word| == 32 && 32 * i + 32 <= |input|
    requires input[32 * i..32 * i + 32] == word
    ensures Length(input, i) == BE(word)
  {
    GetDataIsWindowIff(input, 32 * i, 32);
    assert Window(input, 32 * i, 32) == word;
  }

  lemma SmallFitsWord(n: nat)
    requires n < 3 * U64
    ensures n < Pow2(256)
  {
    Pow2Is64();
    Pow2Add(64, 2);
    Pow2Mono(66, 256);
  }

  lemma ThreeWords(b: seq<byte>, e: seq<byte>, m: seq<byte>, tail: seq<byte>)
    requires |b| == 32 && |e| == 32 && |m| == 32
    ensures var s := b + e + m + tail;
            |s| == 96 + |tail| && s[0..32] == b && s[32..64] == e && s[64..96] == m && s[96..] == tail
  {
  }

  /** Three words that spell the lengths, then the given bytes. */
  lemma SpelledOut(baseLen: nat, expLen: nat, modLen: nat, tail: seq<byte>) returns (input: Slice)
    requires baseLen < 3 * U64 && expLen < 3 * U64 && modLen < 3 * U64 && |tail| <= MAX_TAIL
    ensures HasLengths(input, baseLen, expLen, modLen) && Tail(input) == tail
  {
    SmallFitsWord(baseLen);
    SmallFitsWord(expLen);
    SmallFitsWord(modLen);
    var b, e, m := ToBE(baseLen, 32), ToBE(expLen, 32), ToBE(modLen, 32);
    ThreeWords(b, e, m, tail);
    input := b + e + m + tail;
    LengthIs(input, 0, b);
    LengthIs(input, 1, e);
    LengthIs(input, 2, m);
  }

  lemma WindowsJoin(x: seq<byte>, y: seq<byte>, z: seq<byte>)
    ensures var s := x + y + z;
            Window(s, 0, |x|) == x && Window(s, |x|, |y|) == y && Window(s, |x| + |y|, |z|) == z
  {
  }

  lemma OperandsIn(input: Slice, b: nat, e: nat, m: nat, tail: Slice)
    requires HasLengths(input, b, e, m) && Tail(input) == tail
    ensures BaseOf(input) == BE(Window(tail, 0, b)) && ExpOf(input) == BE(Window(tail, b, e))
    ensures ModOf(input) == BE(Window(tail, b + e, m))
  {
  }

  lemma WindowsSpell(x: seq<byte>, y: seq<byte>, z: seq<byte>, s: seq<byte>)
    requires s == x + y + z
    ensures BE(Window(s, 0, |x|)) == BE(x)
    ensures BE(Window(s, |x|, |y|)) == BE(y)
    ensures BE(Window(s, |x| + |y|, |z|)) == BE(z)
  {
    WindowsJoin(x, y, z);
  }

  lemma SpelledOperands(x: seq<byte>, y: seq<byte>, z: seq<byte>) returns (input: Slice)
    requires |x| + |y| + |z| <= MAX_TAIL
    ensures HasLengths(input, |x|, |y|, |z|) && Tail(input) == x + y + z
    ensures BaseOf(input) == BE(x) && ExpOf(input) == BE(y) && ModOf(input) == BE(z)
  {
    var tail := x + y + z;
    input := SpelledOut(|x|, |y|, |z|, tail);
    OperandsIn(input, |x|, |y|, |z|, tail);
    WindowsSpell(x, y, z, tail);
  }

  /** An input that spells a base, an exponent and a modulus in the given lengths, and how it is run. */
  lemma SpelledRun(base: nat, exp: nat, mod: nat, b: nat, e: nat, m: nat) returns (input: Slice, out: seq<byte>)
    requires base < Pow2(8 * b) && exp < Pow2(8 * e) && mod < Pow2(8 * m) && b + e + m <= MAX_TAIL
    ensures HasLengths(input, b, e, m) && Tail(input) == ToBE(base, b) + ToBE(exp, e) + ToBE(mod, m)
    ensures Run(input) == Some(out) && |out| == m
    ensures BE(out) == if mod == 0 then 0 else Pow(base, exp) % mod
  {
    input := SpelledOperands(ToBE(base, b), ToBE(exp, e), ToBE(mod, m));
    RunIsModExp(input);
    out := Run(input).value;
  }

  lemma OverrunRuns(tail: Slice, baseLen: uint64, expLen: uint64, modLen: uint64)
    requires |tail| == baseLen && baseLen + expLen >= U64
    ensures RunOn(tail, baseLen, expLen, modLen).None?
  {
    GetDataIsWindowIff(tail, baseLen, expLen);
  }

  lemma NoHeadIsLeast(input: Slice)
    requires ExpHead(input) == 0
    ensures Price198(Max(Length(input, 0), Length(input, 2)), AdjExpLen(input))
         == LeastPrice198(Length(input, 0), Length(input, 1), Length(input, 2))
  {
  }

  /** An exponent length that runs over the word makes `Run` panic on a base that is all there is. */
  lemma OverrunPanics(baseLen: nat, expLen: nat, modLen: nat) returns (input: Slice)
    requires LeastPrice198(baseLen, expLen, modLen) < MAX_UINT64 && Max(baseLen, modLen) > 0
    requires baseLen + Wrap64(expLen) >= U64
    ensures HasLengths(input, baseLen, expLen, modLen) && RequiredGas(input, false) < MAX_UINT64 && Run(input).None?
  {
    CheapIsSmall(baseLen, expLen, modLen);
    var tail := Zeros(baseLen);
    input := SpelledOut(baseLen, expLen, modLen, tail);
    NoHeadIsLeast(input);
    OverrunRuns(tail, baseLen, Wrap64(expLen), modLen);
    assert Run(input) == RunOn(tail, baseLen, Wrap64(expLen), modLen);
  }

  lemma EarlyModulusRuns(tail: Slice, baseLen: nat, e: nat)
    requires tail == Zeros(baseLen + e) + [2]
    ensures RunOn(tail, baseLen, e, 1).Some? && BE(RunOn(tail, baseLen, e, 1).value) == 1
  {
    RunOnReadsWindows(tail, baseLen, e, 1);
    assert Window(tail, 0, baseLen) == Zeros(baseLen) && Window(tail, baseLen, e) == Zeros(e);
    BEZeros(baseLen);
    BEZeros(e);
    assert Window(tail, baseLen + e, 1) == [2];
    SingleByte(2);
    assert Pow(0, 0) % 2 == 1;
  }

  lemma WrapTwice(n: nat)
    requires n < 3 * U64
    ensures n <= 2 * U64 + Wrap64(n)
  {
  }

  lemma CheapAt(adj: nat)
    requires adj <= 8 * (2 * U64 - 1) + 256
    ensures Gas198(1, adj) < MAX_UINT64
  {
    assert MultComplexity(1) == 1;
    assert Price198(1, adj) == Max(adj, 1) / 20;
  }

  lemma HeadIsShort(input: Slice)
    ensures BitLen(ExpHead(input)) <= 256
  {
    var size := Min(Length(input, 1), 32);
    HeadIsPrefix(input);
    BEBound(Window(Tail(input), Length(input, 0), size));
    BitLenBound(ExpHead(input), 8 * size);
  }

  lemma EarlyModulusIsCheap(input: Slice, baseLen: nat, expLen: nat)
    requires HasLengths(input, baseLen, expLen, 1) && baseLen <= 1 && U64 <= expLen
    requires Tail(input) == Zeros(baseLen + Wrap64(expLen)) + [2]
    requires LeastPrice198(baseLen, expLen, 1) < MAX_UINT64
    ensures RequiredGas(input, false) < MAX_UINT64
  {
    if Wrap64(expLen) >= 32 {
      assert ExpHead(input) == 0 by {
        HeadIsPrefix(input);
        assert Window(Tail(input), baseLen, 32) == Zeros(32);
        BEZeros(32);
      }
      NoHeadIsLeast(input);
    } else {
      CheapIsSmall(baseLen, expLen, 1);
      WrapTwice(expLen);
      assert AdjExpLen(input) <= 8 * (expLen - 32) + 255 by { HeadIsShort(input); }
      CheapAt(AdjExpLen(input));
    }
  }

  lemma OneIsWrong(input: Slice, out: seq<byte>)
    requires BE(out) == 1 && ModOf(input) == 0
    ensures !IsModExp(input, out)
  {
  }

  /** A truncated exponent length makes `Run` read the modulus too early: here it reads two and answers
      one, where the modulus is past the end and so zero. */
  lemma EarlyModulusIsWrong(baseLen: nat, expLen: nat) returns (input: Slice)
    requires baseLen <= 1 && U64 <= expLen && LeastPrice198(baseLen, expLen, 1) < MAX_UINT64
    requires baseLen + Wrap64(expLen) < MAX_TAIL
    ensures HasLengths(input, baseLen, expLen, 1) && RequiredGas(input, false) < MAX_UINT64
    ensures Run(input).Some? && !IsModExp(input, Run(input).value)
  {
    CheapIsSmall(baseLen, expLen, 1);
    var e := Wrap64(expLen);
    var tail := Zeros(baseLen + e) + [2];
    input := SpelledOut(baseLen, expLen, 1, tail);
    EarlyModulusRuns(tail, baseLen, e);
    assert Run(input) == RunOn(tail, baseLen, e, 1);
    NoModulusIs(tail, baseLen + expLen, 1);
    OneIsWrong(input, Run(input).value);
    EarlyModulusIsCheap(input, baseLen, expLen);
  }

  /** The EIP-198 price guards `Run` exactly for these lengths: unsaturated gas means a right result on
      every tail if and only if there is nothing to compute, or no tail has unsaturated gas, or the
      lengths truncate well. */
  lemma CheapRunIsExactIff(baseLen: nat, expLen: nat, modLen: nat)
    ensures (forall input: Slice ::
               HasLengths(input, baseLen, expLen, modLen) && RequiredGas(input, false) < MAX_UINT64
               ==> RunIsExact(input))
       <==> (baseLen == 0 && modLen == 0)
            || LeastPrice198(baseLen, expLen, modLen) >= MAX_UINT64
            || TruncatesWell(baseLen, expLen, modLen)
  {
    forall input: Slice | HasLengths(input, baseLen, expLen, modLen) && RequiredGas(input, false) < MAX_UINT64
      ensures (baseLen == 0 && modLen == 0) || TruncatesWell(baseLen, expLen, modLen) ==> RunIsExact(input)
      ensures LeastPrice198(baseLen, expLen, modLen) < MAX_UINT64
    {
      LeastIsLeast(input);
      if baseLen == 0 && modLen == 0 {
        NothingIsExact(input);
      } else if TruncatesWell(baseLen, expLen, modLen) {
        TruncatesWellIsExact(input);
      }
    }
    if Max(baseLen, modLen) > 0 && LeastPrice198(baseLen, expLen, modLen) < MAX_UINT64 {
      CheapIsSmall(baseLen, expLen, modLen);
      if baseLen + Wrap64(expLen) >= U64 {
        var input := OverrunPanics(baseLen, expLen, modLen);
      } else if !TruncatesWell(baseLen, expLen, modLen) {
        var input := EarlyModulusIsWrong(baseLen, expLen);
      }
    }
  }

  /** The smallest such case: no base, an exponent of 2^64 bytes and a modulus of one. */
  lemma CheapRunIsWrong() returns (input: Slice)
    ensures HasLengths(input, 0, U64, 1)
    ensures RequiredGas(input, false) < MAX_UINT64
    ensures Run(input).Some? && !IsModExp(input, Run(input).value)
  {
    assert LeastPrice198(0, U64, 1) < MAX_UINT64 by { CheapAt(8 * (U64 - 32)); }
    input := EarlyModulusIsWrong(0, U64);
  }
}
