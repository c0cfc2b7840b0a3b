/** The BLAKE2 F precompile's input and output encodings (EIP-152); the compression itself is a
    parameter. */
module Blake2Codec {
  import opened Words
  import opened Bytes

  const INPUT_LENGTH := 213

  /** The call parameters: rounds, state, message, offset counters, and the final-block flag. */
  datatype Params = Params(rounds: nat, h: seq<uint64>, m: seq<uint64>, t: seq<uint64>, final: bool)

  datatype InputError = ErrInvalidInputLength | ErrInvalidFinalFlag

  ghost predicate WellFormed(p: Params) {
    p.rounds < 0x1_0000_0000 && |p.h| == 8 && |p.m| == 16 && |p.t| == 2
  }

  function Word(s: seq<byte>): uint64
    requires |s| == 8
  {
    ToLEOfLE(s);
    Pow2Is64();
    LE(s)
  }

  /** Consecutive little-endian words. */
  function WordsOf(s: seq<byte>): (r: seq<uint64>)
    ensures |r| == |s| / 8
  {
    if |s| < 8 then [] else [Word(s[..8])] + WordsOf(s[8..])
  }

  function BytesOf(words: seq<uint64>): (r: seq<byte>)
    ensures |r| == 8 * |words|
  {
    if words == [] then [] else ToLE(words[0], 8) + BytesOf(words[1..])
  }

  lemma SliceOfSlice(s: seq<byte>, lo: nat, hi: nat, i: nat, j: nat)
    requires i <= j && lo + j <= hi <= |s|
    ensures s[lo..hi][i..j] == s[lo + i..lo + j]
  {
    var part, whole := s[lo..hi][i..j], s[lo + i..lo + j];
    assert forall k :: 0 <= k < j - i ==> part[k] == s[lo..hi][i + k] == s[lo + i + k] == whole[k];
  }

  lemma {:induction false} WordAt(s: seq<byte>, i: nat)
    requires 8 * i + 8 <= |s|
    ensures WordsOf(s)[i] == Word(s[8 * i..8 * i + 8])
  {
    if i == 0 {
    } else {
      WordAt(s[8..], i - 1);
      SliceOfSlice(s, 8, |s|, 8 * (i - 1), 8 * (i - 1) + 8);
      assert s[8..|s|] == s[8..] && 8 + 8 * (i - 1) == 8 * i;
    }
  }

  lemma {:induction false} WordsOfBytesOf(words: seq<uint64>)
    ensures WordsOf(BytesOf(words)) == words
  {
    if words == [] {
    } else {
      var bytes := BytesOf(words);
      assert bytes[..8] == ToLE(words[0], 8) && bytes[8..] == BytesOf(words[1..]);
      Pow2Is64();
      LEOfToLE(words[0], 8);
      WordsOfBytesOf(words[1..]);
    }
  }

  lemma {:induction false} BytesOfWordsOf(s: seq<byte>)
    requires |s| % 8 == 0
    ensures BytesOf(WordsOf(s)) == s
  {
    if s == [] {
    } else {
      ToLEOfLE(s[..8]);
      BytesOfWordsOf(s[8..]);
      assert WordsOf(s)[1..] == WordsOf(s[8..]);
      assert s == s[..8] + s[8..];
    }
  }

  function Parsed(input: seq<byte>): Result<Params, InputError> {
    if |input| != INPUT_LENGTH then Err(ErrInvalidInputLength)
    else if input[212] != 0 && input[212] != 1 then Err(ErrInvalidFinalFlag)
    else Ok(Params(BE(input[0..4]), WordsOf(input[4..68]), WordsOf(input[68..196]), WordsOf(input[196..212]),
                   input[212] == 1))
  }

  function Serialized(p: Params): seq<byte>
    requires p.rounds < Pow2(32)
  {
    ToBE(p.rounds, 4) + BytesOf(p.h) + BytesOf(p.m) + BytesOf(p.t) + [if p.final then 1 else 0]
  }

  lemma RoundsFit()
    ensures Pow2(32) == 0x1_0000_0000
  {
    assert Pow2(8) == 256;
    assert Pow2(16) == 65536 by { Pow2Add(8, 8); }
    Pow2Add(16, 16);
  }

  lemma PiecesJoin(input: seq<byte>)
    requires |input| == INPUT_LENGTH
    ensures input == input[0..4] + input[4..68] + input[68..196] + input[196..212] + [input[212]]
  {
  }

  lemma ParsedSerializes(input: seq<byte>)
    requires Parsed(input).Ok?
    ensures var p := Parsed(input).value;
            WellFormed(p) && p.rounds < Pow2(32) && Serialized(p) == input
  {
    RoundsFit();
    BEBound(input[0..4]);
    var p := Parsed(input).value;
    BEInjective(ToBE(p.rounds, 4), input[0..4]);
    BytesOfWordsOf(input[4..68]);
    BytesOfWordsOf(input[68..196]);
    BytesOfWordsOf(input[196..212]);
    PiecesJoin(input);
  }

  lemma SerializedSplits(p: Params)
    requires WellFormed(p) && p.rounds < Pow2(32)
    ensures var s := Serialized(p);
            && |s| == INPUT_LENGTH
            && s[0..4] == ToBE(p.rounds, 4) && s[4..68] == BytesOf(p.h) && s[68..196] == BytesOf(p.m)
            && s[196..212] == BytesOf(p.t) && s[212] == if p.final then 1 else 0
  {
  }

  lemma SerializedParses(p: Params)
    requires WellFormed(p) && p.rounds < Pow2(32)
    ensures Parsed(Serialized(p)) == Ok(p)
  {
    SerializedSplits(p);
    WordsOfBytesOf(p.h);
    WordsOfBytesOf(p.m);
    WordsOfBytesOf(p.t);
  }

  /** Accepted inputs correspond one to one with parameters: an input parses to `p` exactly when it is
      the serialisation of `p`, and every accepted input parses to well-formed parameters. */
  lemma ParsedIff(input: seq<byte>, p: Params)
    ensures Parsed(input) == Ok(p) <==> WellFormed(p) && p.rounds < Pow2(32) && input == Serialized(p)
  {
    RoundsFit();
    if Parsed(input) == Ok(p) {
      ParsedSerializes(input);
    } else if WellFormed(p) && input == Serialized(p) {
      SerializedParses(p);
    }
  }

  method ReadWords(input: seq<byte>, offset: nat, n: nat) returns (words: seq<uint64>)
    requires offset + 8 * n <= |input|
    ensures words == WordsOf(input[offset..offset + 8 * n])
  {
    words := [];
    ghost var part := input[offset..offset + 8 * n];
    for i := 0 to n
      invariant |words| == i
      invariant forall j :: 0 <= j < i ==> words[j] == WordsOf(part)[j]
    {
      var at := offset + i * 8;
      SliceOfSlice(input, offset, offset + 8 * n, 8 * i, 8 * i + 8);
      WordAt(part, i);
      words := words + [Word(input[at..at + 8])];
    }
    assert words == WordsOf(part);
  }

  lemma {:induction false} BytesOfLast(words: seq<uint64>, w: uint64)
    ensures BytesOf(words + [w]) == BytesOf(words) + ToLE(w, 8)
  {
    if words == [] {
      assert [w][1..] == [] && ToLE(w, 8) + [] == ToLE(w, 8);
    } else {
      assert (words + [w])[1..] == words[1..] + [w];
      BytesOfLast(words[1..], w);
    }
  }

  /** One more word written behind the bytes of the words before it. */
  lemma WordWritten(before: seq<byte>, after: seq<byte>, words: seq<uint64>, i: nat)
    requires i < |words| && 8 * i + 8 <= |before| == |after|
    requires before[..8 * i] == BytesOf(words[..i])
    requires forall j :: 0 <= j < 8 * i ==> after[j] == before[j]
    requires forall j :: 0 <= j < 8 ==> after[8 * i + j] == ToLE(words[i], 8)[j]
    ensures after[..8 * i + 8] == BytesOf(words[..i + 1])
  {
    assert words[..i + 1] == words[..i] + [words[i]];
    BytesOfLast(words[..i], words[i]);
    assert after[..8 * i + 8] == before[..8 * i] + ToLE(words[i], 8);
  }

  method WriteWords(words: seq<uint64>) returns (s: seq<byte>)
    ensures s == BytesOf(words)
  {
    var output := new byte[8 * |words|](i => 0);
    for i := 0 to |words|
      invariant output[..][..8 * i] == BytesOf(words[..i])
    {
      ghost var before := output[..];
      var word := ToLE(words[i], 8);
      forall j | 0 <= j < 8 {
        output[8 * i + j] := word[j];
      }
      WordWritten(before, output[..], words, i);
    }
    assert words[..|words|] == words;
    s := output[..];
  }

  /** The state is compressed in place and written out; `compress` returns the eight state words. */
  method Run(input: seq<byte>, compress: Params -> seq<uint64>) returns (r: Result<seq<byte>, InputError>)
    requires forall p :: |compress(p)| == 8
    ensures match Parsed(input)
            case Err(e) => r == Err(e)
            case Ok(p) => r.Ok? && |r.value| == 64 && WordsOf(r.value) == compress(p)
  {
    if |input| != INPUT_LENGTH {
      return Err(ErrInvalidInputLength);
    }
    if input[212] != 0 && input[212] != 1 {
      return Err(ErrInvalidFinalFlag);
    }
    var rounds := BE(input[0..4]);
    var final := input[212] == 1;
    var h := ReadWords(input, 4, 8);
    var m := ReadWords(input, 68, 16);
    var t := ReadWords(input, 196, 2);
    h := compress(Params(rounds, h, m, t, final));

    var output := WriteWords(h);
    WordsOfBytesOf(h);
    r := Ok(output);
  }

  /** The number eight bytes spell, the first counting least. */
  function LittleEndian(s: seq<byte>, at: nat): nat
    requires at + 8 <= |s|
  {
    s[at] as int + 0x100 * s[at + 1] as int + 0x1_0000 * s[at + 2] as int + 0x100_0000 * s[at + 3] as int
    + 0x1_0000_0000 * s[at + 4] as int + 0x100_0000_0000 * s[at + 5] as int
    + 0x1_0000_0000_0000 * s[at + 6] as int + 0x100_0000_0000_0000 * s[at + 7] as int
  }

  lemma WordIs(s: seq<byte>, at: nat)
    requires at + 8 <= |s|
    ensures Word(s[at..at + 8]) == LittleEndian(s, at)
  {
    var w := s[at..at + 8];
    assert LE(w[8..]) == 0;
    assert LE(w[7..]) == s[at + 7] as int + 0x100 * LE(w[7..][1..]) && w[7..][1..] == w[8..];
    assert LE(w[6..]) == s[at + 6] as int + 0x100 * LE(w[6..][1..]) && w[6..][1..] == w[7..];
    assert LE(w[5..]) == s[at + 5] as int + 0x100 * LE(w[5..][1..]) && w[5..][1..] == w[6..];
    assert LE(w[4..]) == s[at + 4] as int + 0x100 * LE(w[4..][1..]) && w[4..][1..] == w[5..];
    assert LE(w[3..]) == s[at + 3] as int + 0x100 * LE(w[3..][1..]) && w[3..][1..] == w[4..];
    assert LE(w[2..]) == s[at + 2] as int + 0x100 * LE(w[2..][1..]) && w[2..][1..] == w[3..];
    assert LE(w[1..]) == s[at + 1] as int + 0x100 * LE(w[1..][1..]) && w[1..][1..] == w[2..];
    assert LE(w) == s[at] as int + 0x100 * LE(w[1..]);
  }

  lemma RoundsAre(s: seq<byte>)
    requires |s| >= 4
    ensures BE(s[0..4]) == 0x100_0000 * s[0] as int + 0x1_0000 * s[1] as int + 0x100 * s[2] as int + s[3] as int
  {
    var r := s[0..4];
    assert BE(r[..0]) == 0;
    assert r[..1][..0] == r[..0] && BE(r[..1]) == s[0];
    assert r[..2][..1] == r[..1] && BE(r[..2]) == 0x100 * s[0] as int + s[1] as int;
    assert r[..3][..2] == r[..2] && BE(r[..3]) == 0x100 * BE(r[..2]) + s[2] as int;
    assert r[..3] == r[..|r| - 1];
  }

  lemma WordInPart(input: seq<byte>, lo: nat, hi: nat, i: nat)
    requires lo + 8 * i + 8 <= hi <= |input|
    ensures i < |WordsOf(input[lo..hi])| && WordsOf(input[lo..hi])[i] == LittleEndian(input, lo + 8 * i)
  {
    WordAt(input[lo..hi], i);
    SliceOfSlice(input, lo, hi, 8 * i, 8 * i + 8);
    WordIs(input, lo + 8 * i);
  }

  /** Where the parameters are: four bytes of rounds, then eight, sixteen and two little-endian words, and
      a flag; and which error a rejected input is. */
  lemma ParsedIs(input: seq<byte>, i: nat)
    ensures Parsed(input) == Err(ErrInvalidInputLength) <==> |input| != 213
    ensures Parsed(input) == Err(ErrInvalidFinalFlag) <==> |input| == 213 && input[212] > 1
    ensures Parsed(input).Ok? ==>
      var p := Parsed(input).value;
      && p.rounds == 0x100_0000 * input[0] as int + 0x1_0000 * input[1] as int + 0x100 * input[2] as int
                     + input[3] as int
      && |p.h| == 8 && |p.m| == 16 && |p.t| == 2
      && (i < 8 ==> p.h[i] == LittleEndian(input, 4 + 8 * i))
      && (i < 16 ==> p.m[i] == LittleEndian(input, 68 + 8 * i))
      && (i < 2 ==> p.t[i] == LittleEndian(input, 196 + 8 * i))
      && (p.final <==> input[212] == 1)
  {
    if Parsed(input).Ok? {
      RoundsAre(input);
      if i < 8 { WordInPart(input, 4, 68, i); }
      if i < 16 { WordInPart(input, 68, 196, i); }
      if i < 2 { WordInPart(input, 196, 212, i); }
    }
  }
}
