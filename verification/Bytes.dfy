/** Byte strings as big-endian and little-endian numbers, and bit lengths. */
module Bytes {
  import opened Words

  function Pow2(n: nat): (p: nat)
    ensures p >= 1
  {
    if n == 0 then 1 else 2 * Pow2(n - 1)
  }

  /** The number a byte string spells, most significant byte first. */
  function BE(s: seq<byte>): nat {
    if s == [] then 0 else BE(s[..|s| - 1]) * 256 + s[|s| - 1]
  }

  function BitLen(n: nat): nat { if n == 0 then 0 else 1 + BitLen(n / 2) }

  function Zeros(n: nat): (z: seq<byte>)
    ensures |z| == n
  {
    seq(n, i => 0)
  }

  lemma {:induction false} Pow2Add(a: nat, b: nat)
    ensures Pow2(a + b) == Pow2(a) * Pow2(b)
  {
    if b == 0 {
    } else {
      Pow2Add(a, b - 1);
      assert Pow2(a + b) == 2 * Pow2(a + b - 1);
    }
  }

  lemma {:induction false} Pow2Mono(a: nat, b: nat)
    requires a <= b
    ensures Pow2(a) <= Pow2(b)
  {
    if a == b {
    } else {
      Pow2Mono(a, b - 1);
    }
  }

  lemma Pow2Bytes(n: nat)
    requires n > 0
    ensures Pow2(8 * n) == 256 * Pow2(8 * (n - 1))
  {
    Pow2Add(8, 8 * (n - 1));
    assert Pow2(8) == 256;
  }

  lemma {:induction false} BEBound(s: seq<byte>)
    ensures BE(s) < Pow2(8 * |s|)
  {
    if s == [] {
    } else {
      BEBound(s[..|s| - 1]);
      Pow2Bytes(|s|);
    }
  }

  lemma {:induction false} BEConcat(a: seq<byte>, b: seq<byte>)
    ensures BE(a + b) == BE(a) * Pow2(8 * |b|) + BE(b)
  {
    if b == [] {
      assert a + b == a;
    } else {
      var b' := b[..|b| - 1];
      assert (a + b)[..|a + b| - 1] == a + b';
      BEConcat(a, b');
      Pow2Bytes(|b|);
      MulThree(BE(a), 256, Pow2(8 * |b'|));
    }
  }

  lemma {:induction false} BEZeros(n: nat)
    ensures BE(Zeros(n)) == 0
  {
    if n == 0 {
    } else {
      assert Zeros(n)[..n - 1] == Zeros(n - 1);
      BEZeros(n - 1);
    }
  }

  /** The bit length is the exponent of the smallest power of two above the number. */
  lemma {:induction false} BitLenIs(n: nat)
    ensures n < Pow2(BitLen(n))
    ensures n > 0 ==> BitLen(n) > 0 && Pow2(BitLen(n) - 1) <= n
  {
    if n <= 1 {
    } else {
      BitLenIs(n / 2);
    }
  }

  lemma Pow2Less(a: nat, b: nat)
    requires Pow2(a) < Pow2(b)
    ensures a < b
  {
    if b <= a { Pow2Mono(b, a); }
  }

  lemma BitLenBound(n: nat, k: nat)
    requires n < Pow2(k)
    ensures BitLen(n) <= k
  {
    if n > 0 {
      BitLenIs(n);
      Pow2Less(BitLen(n) - 1, k);
    }
  }

  lemma BitLenUnique(n: nat, k: nat)
    requires Pow2(k) <= n < Pow2(k + 1)
    ensures BitLen(n) == k + 1
  {
    BitLenBound(n, k + 1);
    BitLenIs(n);
    Pow2Less(k, BitLen(n));
  }

  /** Appending k low bits to a non-zero number adds k to its bit length. */
  lemma BitLenShift(h: nat, k: nat, low: nat)
    requires h > 0 && low < Pow2(k)
    ensures BitLen(h * Pow2(k) + low) == BitLen(h) + k
  {
    var n := BitLen(h) - 1;
    BitLenIs(h);
    assert Pow2(n + k) == Pow2(n) * Pow2(k) by { Pow2Add(n, k); }
    assert Pow2(n + 1 + k) == Pow2(n + 1) * Pow2(k) by { Pow2Add(n + 1, k); }
    var x := h * Pow2(k) + low;
    assert Pow2(n + k) <= h * Pow2(k) by { MulMono(Pow2(k), Pow2(n), h); }
    assert x < Pow2(n + 1 + k) by {
      MulSplit(h, 1, Pow2(k));
      MulMono(Pow2(k), h + 1, Pow2(n + 1));
    }
    BitLenUnique(x, n + k);
  }

  /** The shortest big-endian form, empty for zero. */
  function MinBytes(n: nat): (s: seq<byte>)
    ensures BE(s) == n
  {
    if n == 0 then []
    else
      var s := MinBytes(n / 256) + [n % 256];
      assert s[..|s| - 1] == MinBytes(n / 256);
      s
  }

  lemma {:induction false} MinBytesLength(n: nat, l: nat)
    requires n < Pow2(8 * l)
    ensures |MinBytes(n)| <= l
  {
    if n == 0 {
    } else {
      assert l > 0;
      Pow2Bytes(l);
      MinBytesLength(n / 256, l - 1);
    }
  }

  /** Left padding with zeros keeps the number. */
  function LeftPad(s: seq<byte>, l: int): (r: seq<byte>)
    ensures BE(r) == BE(s)
    ensures |r| == Max(|s|, l)
  {
    if l <= |s| then s
    else
      BEConcat(Zeros(l - |s|), s);
      BEZeros(l - |s|);
      Zeros(l - |s|) + s
  }

  /** Big-endian strings of one length spell distinct numbers. */
  lemma {:induction false} BEInjective(a: seq<byte>, b: seq<byte>)
    requires |a| == |b| && BE(a) == BE(b)
    ensures a == b
  {
    if a == [] {
    } else {
      var n := |a| - 1;
      BEInjective(a[..n], b[..n]);
      assert a == a[..n] + [a[n]] && b == b[..n] + [b[n]];
    }
  }

  /** The big-endian form of a number in exactly `l` bytes. */
  function ToBE(n: nat, l: nat): (r: seq<byte>)
    requires n < Pow2(8 * l)
    ensures |r| == l && BE(r) == n
  {
    MinBytesLength(n, l);
    LeftPad(MinBytes(n), l)
  }

  /** The number a byte string spells, least significant byte first. */
  function LE(s: seq<byte>): nat {
    if s == [] then 0 else s[0] + 256 * LE(s[1..])
  }

  function ToLE(n: nat, l: nat): (r: seq<byte>)
    ensures |r| == l
  {
    if l == 0 then [] else [n % 256] + ToLE(n / 256, l - 1)
  }

  lemma {:induction false} LEOfToLE(n: nat, l: nat)
    requires n < Pow2(8 * l)
    ensures LE(ToLE(n, l)) == n
  {
    if l == 0 {
    } else {
      Pow2Bytes(l);
      LEOfToLE(n / 256, l - 1);
      assert ToLE(n, l)[1..] == ToLE(n / 256, l - 1);
    }
  }

  lemma {:induction false} ToLEOfLE(s: seq<byte>)
    ensures ToLE(LE(s), |s|) == s
    ensures LE(s) < Pow2(8 * |s|)
  {
    if s == [] {
    } else {
      ToLEOfLE(s[1..]);
      Pow2Bytes(|s|);
      assert LE(s) % 256 == s[0] && LE(s) / 256 == LE(s[1..]);
    }
  }

  lemma LEStep(first: nat, rest: nat, power: nat, more: nat)
    ensures first + 256 * (rest + power * more) == first + 256 * rest + 256 * power * more
  {
  }

  /** The first byte counts least. */
  lemma {:induction false} LEConcat(a: seq<byte>, b: seq<byte>)
    ensures LE(a + b) == LE(a) + Pow2(8 * |a|) * LE(b)
  {
    if a == [] {
      assert a + b == b;
    } else {
      assert (a + b)[1..] == a[1..] + b;
      LEConcat(a[1..], b);
      Pow2Bytes(|a|);
      LEStep(a[0], LE(a[1..]), Pow2(8 * |a[1..]|), LE(b));
    }
  }

  lemma Pow2Is64()
    ensures Pow2(64) == U64
  {
    assert Pow2(8) == 256;
    assert Pow2(16) == 65536 by { Pow2Add(8, 8); }
    assert Pow2(32) == 0x1_0000_0000 by { Pow2Add(16, 16); }
    Pow2Add(32, 32);
  }
}
