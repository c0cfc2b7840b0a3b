/** The byte encodings of BLS12-381 points (EIP-2537): field elements in 64 bytes, of which the top 16
    are zero, and points as their coordinates. The curve equation is a parameter. */
module BlsCodec {
  import opened Words
  import opened Bytes

  const MODULUS: nat :=
    0x1a0111ea_397fe69a_4b1ba7b6_434bacd7_64774b84_f38512bf_6730d2a0_f6b0f624_1eabfffe_b153ffff_b9feffff_ffffaaab

  type Element = x: nat | x < MODULUS

  datatype CodecError =
    | ErrPointLength | ErrElementLength | ErrTopBytes | ErrNotCanonical | ErrNotOnCurve

  datatype G1 = G1(x: Element, y: Element)

  /** A point over the quadratic extension; each coordinate is a pair of elements. */
  datatype G2 = G2(x0: Element, x1: Element, y0: Element, y1: Element)

  lemma ModulusFits()
    ensures MODULUS < Pow2(8 * 48)
  {
    Pow2Is64();
    assert Pow2(128) == 0x1_00000000_00000000_00000000_00000000 by { Pow2Add(64, 64); }
    assert Pow2(256) == U256 by { Pow2Add(128, 128); }
    Pow2Add(256, 128);
  }

  predicate AllZero(s: seq<byte>) { forall i :: 0 <= i < |s| ==> s[i] == 0 }

  /** The 48 bytes of an element, big-endian. */
  function ElementBytes(x: Element): (r: seq<byte>)
    ensures |r| == 48 && BE(r) == x
  {
    ModulusFits();
    ToBE(x, 48)
  }

  function ElementOf(s: seq<byte>): Result<Element, CodecError> {
    if |s| != 64 then Err(ErrElementLength)
    else if !AllZero(s[..16]) then Err(ErrTopBytes)
    else if BE(s[16..]) >= MODULUS then Err(ErrNotCanonical)
    else Ok(BE(s[16..]))
  }

  function Encoded(x: Element): (r: seq<byte>)
    ensures |r| == 64
  {
    Zeros(16) + ElementBytes(x)
  }

  method DecodeFieldElement(s: seq<byte>) returns (r: Result<Element, CodecError>)
    ensures r == ElementOf(s)
  {
    if |s| != 64 {
      return Err(ErrElementLength);
    }
    for i := 0 to 16
      invariant AllZero(s[..i])
    {
      if s[i] != 0 {
        assert s[..16][i] != 0;
        return Err(ErrTopBytes);
      }
    }
    var v := BE(s[16..]);
    r := if v >= MODULUS then Err(ErrNotCanonical) else Ok(v);
  }

  /** A field element has one encoding, and every accepted encoding is it. */
  lemma ElementRoundTrip(x: Element)
    ensures ElementOf(Encoded(x)) == Ok(x)
  {
    assert Encoded(x)[16..] == ElementBytes(x);
    assert Encoded(x)[..16] == Zeros(16);
  }

  lemma AcceptedElementIsCanonical(s: seq<byte>)
    requires ElementOf(s).Ok?
    ensures Encoded(ElementOf(s).value) == s
  {
    BEInjective(ElementBytes(ElementOf(s).value), s[16..]);
    assert s[..16] == Zeros(16);
    assert s == s[..16] + s[16..];
  }

  function EncodedG1(p: G1): (r: seq<byte>)
    ensures |r| == 128
  {
    Encoded(p.x) + Encoded(p.y)
  }

  function EncodedG2(p: G2): (r: seq<byte>)
    ensures |r| == 256
  {
    Encoded(p.x0) + Encoded(p.x1) + Encoded(p.y0) + Encoded(p.y1)
  }

  method PutElement(out: array<byte>, offset: nat, x: Element)
    requires offset + 48 <= out.Length
    modifies out
    ensures forall i :: 0 <= i < out.Length ==>
      out[i] == if offset <= i < offset + 48 then ElementBytes(x)[i - offset] else old(out[i])
  {
    var bytes := ElementBytes(x);
    forall i | 0 <= i < 48 {
      out[offset + i] := bytes[i];
    }
  }

  method EncodePointG1(p: G1) returns (out: array<byte>)
    ensures fresh(out) && out[..] == EncodedG1(p)
  {
    out := new byte[128](i => 0);
    PutElement(out, 16, p.x);
    PutElement(out, 64 + 16, p.y);
    assert out[..64] == Encoded(p.x);
    assert out[64..] == Encoded(p.y);
    assert out[..] == out[..64] + out[64..];
  }

  method EncodePointG2(p: G2) returns (out: array<byte>)
    ensures fresh(out) && out[..] == EncodedG2(p)
  {
    out := new byte[256](i => 0);
    PutElement(out, 16, p.x0);
    PutElement(out, 80, p.x1);
    PutElement(out, 144, p.y0);
    PutElement(out, 208, p.y1);
    assert out[..64] == Encoded(p.x0);
    assert out[64..128] == Encoded(p.x1);
    assert out[128..192] == Encoded(p.y0);
    assert out[192..] == Encoded(p.y1);
    assert out[..] == out[..64] + out[64..128] + out[128..192] + out[192..];
  }

  /** The first error among the coordinates in order, then the curve. */
  function PointG1(s: seq<byte>, onCurve: G1 -> bool): Result<G1, CodecError> {
    if |s| != 128 then Err(ErrPointLength)
    else
      var x, y := ElementOf(s[..64]), ElementOf(s[64..]);
      if x.Err? then Err(x.error)
      else if y.Err? then Err(y.error)
      else if onCurve(G1(x.value, y.value)) then Ok(G1(x.value, y.value))
      else Err(ErrNotOnCurve)
  }

  method DecodePointG1(s: seq<byte>, onCurve: G1 -> bool) returns (r: Result<G1, CodecError>)
    ensures r == PointG1(s, onCurve)
  {
    if |s| != 128 {
      return Err(ErrPointLength);
    }
    var x := DecodeFieldElement(s[..64]);
    if x.Err? {
      return Err(x.error);
    }
    var y := DecodeFieldElement(s[64..]);
    if y.Err? {
      return Err(y.error);
    }
    var p := G1(x.value, y.value);
    r := if onCurve(p) then Ok(p) else Err(ErrNotOnCurve);
  }

  function PointG2(s: seq<byte>, onCurve: G2 -> bool): Result<G2, CodecError> {
    if |s| != 256 then Err(ErrPointLength)
    else
      var x0, x1, y0, y1 := ElementOf(s[..64]), ElementOf(s[64..128]), ElementOf(s[128..192]), ElementOf(s[192..]);
      if x0.Err? then Err(x0.error)
      else if x1.Err? then Err(x1.error)
      else if y0.Err? then Err(y0.error)
      else if y1.Err? then Err(y1.error)
      else
        var p := G2(x0.value, x1.value, y0.value, y1.value);
        if onCurve(p) then Ok(p) else Err(ErrNotOnCurve)
  }

  method DecodePointG2(s: seq<byte>, onCurve: G2 -> bool) returns (r: Result<G2, CodecError>)
    ensures r == PointG2(s, onCurve)
  {
    if |s| != 256 {
      return Err(ErrPointLength);
    }
    var x0 := DecodeFieldElement(s[..64]);
    if x0.Err? { return Err(x0.error); }
    var x1 := DecodeFieldElement(s[64..128]);
    if x1.Err? { return Err(x1.error); }
    var y0 := DecodeFieldElement(s[128..192]);
    if y0.Err? { return Err(y0.error); }
    var y1 := DecodeFieldElement(s[192..]);
    if y1.Err? { return Err(y1.error); }
    var p := G2(x0.value, x1.value, y0.value, y1.value);
    r := if onCurve(p) then Ok(p) else Err(ErrNotOnCurve);
  }

  /** A byte string decodes to a point exactly when it is the encoding of that point and the point is
      on the curve: decoding inverts encoding on the curve, and every accepted input is canonical. */
  lemma DecodeG1Iff(s: seq<byte>, p: G1, onCurve: G1 -> bool)
    ensures PointG1(s, onCurve) == Ok(p) <==> s == EncodedG1(p) && onCurve(p)
  {
    if PointG1(s, onCurve) == Ok(p) {
      AcceptedElementIsCanonical(s[..64]);
      AcceptedElementIsCanonical(s[64..]);
      assert s == s[..64] + s[64..];
    } else if s == EncodedG1(p) {
      ElementRoundTrip(p.x);
      ElementRoundTrip(p.y);
      assert s[..64] == Encoded(p.x) && s[64..] == Encoded(p.y);
    }
  }

  lemma AcceptedG2IsCanonical(s: seq<byte>, onCurve: G2 -> bool)
    requires PointG2(s, onCurve).Ok?
    ensures EncodedG2(PointG2(s, onCurve).value) == s && onCurve(PointG2(s, onCurve).value)
  {
    AcceptedElementIsCanonical(s[..64]);
    AcceptedElementIsCanonical(s[64..128]);
    AcceptedElementIsCanonical(s[128..192]);
    AcceptedElementIsCanonical(s[192..]);
    assert s == s[..64] + s[64..128] + s[128..192] + s[192..];
  }

  lemma EncodedG2Splits(p: G2)
    ensures var s := EncodedG2(p);
            s[..64] == Encoded(p.x0) && s[64..128] == Encoded(p.x1)
            && s[128..192] == Encoded(p.y0) && s[192..] == Encoded(p.y1)
  {
  }

  lemma DecodeG2Iff(s: seq<byte>, p: G2, onCurve: G2 -> bool)
    ensures PointG2(s, onCurve) == Ok(p) <==> s == EncodedG2(p) && onCurve(p)
  {
    if PointG2(s, onCurve) == Ok(p) {
      AcceptedG2IsCanonical(s, onCurve);
    } else if s == EncodedG2(p) {
      EncodedG2Splits(p);
      ElementRoundTrip(p.x0);
      ElementRoundTrip(p.x1);
      ElementRoundTrip(p.y0);
      ElementRoundTrip(p.y1);
    }
  }

  /** Where the coordinates are: each as a big-endian number in the last 48 of its 64 bytes, x before y,
      and over the extension the first component before the second. */
  lemma CoordinatesAre(p: G1, q: G2)
    ensures var s := EncodedG1(p);
            && BE(s[16..64]) == p.x && BE(s[80..128]) == p.y
            && AllZero(s[0..16]) && AllZero(s[64..80])
    ensures var s := EncodedG2(q);
            && BE(s[16..64]) == q.x0 && BE(s[80..128]) == q.x1
            && BE(s[144..192]) == q.y0 && BE(s[208..256]) == q.y1
            && AllZero(s[0..16]) && AllZero(s[64..80]) && AllZero(s[128..144]) && AllZero(s[192..208])
  {
    var s, t := EncodedG1(p), EncodedG2(q);
    assert s[16..64] == ElementBytes(p.x) && s[80..128] == ElementBytes(p.y);
    assert t[16..64] == ElementBytes(q.x0) && t[80..128] == ElementBytes(q.x1);
    assert t[144..192] == ElementBytes(q.y0) && t[208..256] == ElementBytes(q.y1);
  }

  /** Which error a rejected element is: of its length, of its top bytes, of its size. */
  lemma ElementErrorIs(s: seq<byte>)
    ensures ElementOf(s) == Err(ErrElementLength) <==> |s| != 64
    ensures ElementOf(s) == Err(ErrTopBytes) <==> |s| == 64 && exists i :: 0 <= i < 16 && s[i] != 0
    ensures ElementOf(s) == Err(ErrNotCanonical) <==>
      |s| == 64 && (forall i :: 0 <= i < 16 ==> s[i] == 0) && BE(s[16..]) >= MODULUS
    ensures ElementOf(s).Ok? ==> ElementOf(s).value == BE(s[16..])
  {
    if |s| == 64 {
      assert forall i :: 0 <= i < 16 ==> s[..16][i] == s[i];
    }
  }

  /** Which error a rejected point is: of its length, of its first bad coordinate, or of the curve. */
  lemma PointErrorIs(s: seq<byte>, onCurve: G1 -> bool)
    ensures PointG1(s, onCurve) == Err(ErrPointLength) <==> |s| != 128
    ensures |s| == 128 ==>
      var x, y, r := ElementOf(s[..64]), ElementOf(s[64..]), PointG1(s, onCurve);
      && (x.Err? ==> r == Err(x.error))
      && (x.Ok? && y.Err? ==> r == Err(y.error))
      && (x.Ok? && y.Ok? ==>
          var p := G1(x.value, y.value);
          r == if onCurve(p) then Ok(p) else Err(ErrNotOnCurve))
  {
  }

  lemma PointG2ErrorIs(s: seq<byte>, onCurve: G2 -> bool)
    ensures PointG2(s, onCurve) == Err(ErrPointLength) <==> |s| != 256
    ensures |s| == 256 ==>
      var x0, x1, y0, y1 := ElementOf(s[..64]), ElementOf(s[64..128]), ElementOf(s[128..192]), ElementOf(s[192..]);
      var r := PointG2(s, onCurve);
      && (x0.Err? ==> r == Err(x0.error))
      && (x0.Ok? && x1.Err? ==> r == Err(x1.error))
      && (x0.Ok? && x1.Ok? && y0.Err? ==> r == Err(y0.error))
      && (x0.Ok? && x1.Ok? && y0.Ok? && y1.Err? ==> r == Err(y1.error))
      && (x0.Ok? && x1.Ok? && y0.Ok? && y1.Ok? ==>
          var p := G2(x0.value, x1.value, y0.value, y1.value);
          r == if onCurve(p) then Ok(p) else Err(ErrNotOnCurve))
  {
  }
}
