/**
 * Go's `base64.StdEncoding` (the standard alphabet of section 4 of RFC 4648,
 * with `=` padding): EncodeToString and DecodeString. The decoder is not
 * strict: it skips carriage returns and line feeds anywhere in the input and
 * ignores the unused low bits of a padded final group.
 */
module Base64 {
  import opened Bytes
  import opened Results

  type Sextet = x: int | 0 <= x < 64

  /** The character of the standard alphabet that stands for `v`. */
  function Char(v: Sextet): (c: char)
    ensures InAlphabet(c) && SextetOf(c) == v
  {
    if v < 26 then ('A' as int + v) as char
    else if v < 52 then ('a' as int + v - 26) as char
    else if v < 62 then ('0' as int + v - 52) as char
    else if v == 62 then '+'
    else '/'
  }

  predicate InAlphabet(c: char) {
    'A' <= c <= 'Z' || 'a' <= c <= 'z' || '0' <= c <= '9' || c == '+' || c == '/'
  }

  /** The six bits an alphabet character stands for. */
  function SextetOf(c: char): Sextet
    requires InAlphabet(c)
  {
    if 'A' <= c <= 'Z' then c as int - 'A' as int
    else if 'a' <= c <= 'z' then c as int - 'a' as int + 26
    else if '0' <= c <= '9' then c as int - '0' as int + 52
    else if c == '+' then 62
    else 63
  }

  /** The characters an encoding is made of. */
  predicate EncodedChar(c: char) {
    InAlphabet(c) || c == '='
  }

  /** EncodeToString: each group of three bytes becomes four characters; a short last group is padded with `=`. */
  function Encode(b: seq<Byte>): (s: string)
    ensures |s| == 4 * ((|b| + 2) / 3)
    ensures forall i | 0 <= i < |s| :: EncodedChar(s[i])
    decreases |b|
  {
    if |b| == 0 then ""
    else if |b| == 1 then [Char(b[0] / 4), Char(b[0] % 4 * 16), '=', '=']
    else if |b| == 2 then [Char(b[0] / 4), Char(b[0] % 4 * 16 + b[1] / 16), Char(b[1] % 16 * 4), '=']
    else EncodeGroup(b[0], b[1], b[2]) + Encode(b[3..])
  }

  /** Three bytes as four characters. */
  function EncodeGroup(b0: Byte, b1: Byte, b2: Byte): (q: string)
    ensures |q| == 4 && AllAlphabet(q)
  {
    [Char(b0 / 4), Char(b0 % 4 * 16 + b1 / 16), Char(b1 % 16 * 4 + b2 / 64), Char(b2 % 64)]
  }

  /** The input with every carriage return and line feed removed. */
  function WithoutLineBreaks(s: string): (r: string)
    ensures |r| <= |s|
    ensures forall i | 0 <= i < |r| :: r[i] != '\r' && r[i] != '\n'
  {
    if s == [] then ""
    else if s[0] == '\r' || s[0] == '\n' then WithoutLineBreaks(s[1..])
    else [s[0]] + WithoutLineBreaks(s[1..])
  }

  /** The first of three bytes packed in four sextets. */
  function Byte0(s0: Sextet, s1: Sextet): Byte { s0 * 4 + s1 / 16 }
  /** The second of three bytes packed in four sextets. */
  function Byte1(s1: Sextet, s2: Sextet): Byte { s1 % 16 * 16 + s2 / 4 }
  /** The third of three bytes packed in four sextets. */
  function Byte2(s2: Sextet, s3: Sextet): Byte { s2 % 4 * 64 + s3 }

  predicate AllAlphabet(q: string) {
    forall i | 0 <= i < |q| :: InAlphabet(q[i])
  }

  /** The last group of four characters: no padding, `x=` or `==`. */
  function DecodeFinal(q: string): Option<seq<Byte>>
    requires |q| == 4
  {
    if !InAlphabet(q[0]) || !InAlphabet(q[1]) then None
    else
      var s0, s1 := SextetOf(q[0]), SextetOf(q[1]);
      if InAlphabet(q[2]) && InAlphabet(q[3]) then
        var s2, s3 := SextetOf(q[2]), SextetOf(q[3]);
        Some([Byte0(s0, s1), Byte1(s1, s2), Byte2(s2, s3)])
      else if InAlphabet(q[2]) && q[3] == '=' then
        Some([Byte0(s0, s1), Byte1(s1, SextetOf(q[2]))])
      else if q[2] == '=' && q[3] == '=' then
        Some([Byte0(s0, s1)])
      else None
  }

  /** A last group the decoder accepts: two alphabet characters, then two more, `x=` or `==`. */
  predicate FinalGroup(q: string)
    requires |q| == 4
  {
    && InAlphabet(q[0]) && InAlphabet(q[1])
    && ((InAlphabet(q[2]) && (InAlphabet(q[3]) || q[3] == '=')) || (q[2] == '=' && q[3] == '='))
  }

  /** Whole groups of four characters, all from the alphabet but for padding in the last group. */
  predicate Groups(t: string) {
    && |t| % 4 == 0
    && (|t| > 0 ==> AllAlphabet(t[..|t| - 4]) && FinalGroup(t[|t| - 4..]))
  }

  /** Alphabet characters in a concatenation: exactly when in both parts. */
  lemma AllAlphabetConcat(a: string, b: string)
    ensures AllAlphabet(a + b) <==> AllAlphabet(a) && AllAlphabet(b)
  {
    if AllAlphabet(a + b) {
      forall i | 0 <= i < |a| ensures InAlphabet(a[i]) {
        assert (a + b)[i] == a[i];
      }
      forall i | 0 <= i < |b| ensures InAlphabet(b[i]) {
        assert (a + b)[i + |a|] == b[i];
      }
    }
  }

  /** Longer than one group: a full group of alphabet characters, then whole groups. */
  lemma GroupsStep(t: string)
    requires |t| > 4
    ensures Groups(t) <==> AllAlphabet(t[..4]) && Groups(t[4..])
  {
    var u := t[4..];
    if |t| >= 8 {
      assert u[|u| - 4..] == t[|t| - 4..];
      assert t[..|t| - 4] == t[..4] + u[..|u| - 4];
      AllAlphabetConcat(t[..4], u[..|u| - 4]);
    }
  }

  /** Groups of four characters; only the last one may carry padding. */
  function DecodeGroups(t: string): Option<seq<Byte>>
    decreases |t|
  {
    if |t| == 0 then Some([])
    else if |t| < 4 then None
    else if |t| == 4 then DecodeFinal(t)
    else if !AllAlphabet(t[..4]) then None
    else
      var s0, s1, s2, s3 := SextetOf(t[0]), SextetOf(t[1]), SextetOf(t[2]), SextetOf(t[3]);
      match DecodeGroups(t[4..])
      case None => None
      case Some(rest) => Some([Byte0(s0, s1), Byte1(s1, s2), Byte2(s2, s3)] + rest)
  }

  /** DecodeString. */
  function Decode(s: string): Option<seq<Byte>> {
    DecodeGroups(WithoutLineBreaks(s))
  }

  /** The groups the decoder accepts are exactly whole groups with padding only at the end. */
  lemma {:induction false} DecodeGroupsAccepts(t: string)
    ensures DecodeGroups(t).Some? <==> Groups(t)
    decreases |t|
  {
    if |t| == 4 {
      assert t[..|t| - 4] == [] && t[|t| - 4..] == t;
    } else if |t| > 4 {
      GroupsStep(t);
      DecodeGroupsAccepts(t[4..]);
    }
  }

  /**
   * DecodeString accepts exactly the texts that, without their line
   * breaks, are whole groups of four with padding only in the last group.
   */
  lemma DecodeAccepts(s: string)
    ensures Decode(s).Some? <==> Groups(WithoutLineBreaks(s))
  {
    DecodeGroupsAccepts(WithoutLineBreaks(s));
  }

  /** An encoding holds no line breaks, so the decoder keeps all of it. */
  lemma {:induction false} WithoutLineBreaksOfEncoded(s: string)
    requires forall i | 0 <= i < |s| :: EncodedChar(s[i])
    ensures WithoutLineBreaks(s) == s
  {
    if s != [] {
      WithoutLineBreaksOfEncoded(s[1..]);
    }
  }

  /** The bit packing of one group of three bytes is undone by the unpacking. */
  lemma PackUnpack(b0: Byte, b1: Byte, b2: Byte)
    ensures Byte0(b0 / 4, b0 % 4 * 16 + b1 / 16) == b0
    ensures Byte1(b0 % 4 * 16 + b1 / 16, b1 % 16 * 4 + b2 / 64) == b1
    ensures Byte2(b1 % 16 * 4 + b2 / 64, b2 % 64) == b2
  {
  }

  /** Decoding an encoding gives the bytes back (section 4 of RFC 4648). */
  lemma {:induction false} DecodeEncode(b: seq<Byte>)
    ensures Decode(Encode(b)) == Some(b)
  {
    WithoutLineBreaksOfEncoded(Encode(b));
    DecodeGroupsEncode(b);
  }

  /** A full group decodes to its three bytes, in front of whatever follows. */
  lemma DecodeGroup(b0: Byte, b1: Byte, b2: Byte, t: string)
    ensures DecodeGroups(EncodeGroup(b0, b1, b2) + t) ==
      if t == [] then Some([b0, b1, b2])
      else match DecodeGroups(t)
        case None => None
        case Some(rest) => Some([b0, b1, b2] + rest)
  {
    PackUnpack(b0, b1, b2);
    var e := EncodeGroup(b0, b1, b2) + t;
    assert e[..4] == EncodeGroup(b0, b1, b2) && e[4..] == t;
  }

  /** One trailing byte: two characters and `==`. */
  lemma DecodeOneByte(b0: Byte)
    ensures DecodeGroups(Encode([b0])) == Some([b0])
  {
    PackUnpack(b0, 0, 0);
  }

  /** Two trailing bytes: three characters and `=`. */
  lemma DecodeTwoBytes(b0: Byte, b1: Byte)
    ensures DecodeGroups(Encode([b0, b1])) == Some([b0, b1])
  {
    PackUnpack(b0, b1, 0);
    var s0, s1, s2 := b0 / 4, b0 % 4 * 16 + b1 / 16, b1 % 16 * 4;
    var e := Encode([b0, b1]);
    assert e == [Char(s0), Char(s1), Char(s2), '='];
    assert !InAlphabet(e[3]);
    assert SextetOf(e[0]) == s0 && SextetOf(e[1]) == s1 && SextetOf(e[2]) == s2;
    assert DecodeFinal(e) == Some([Byte0(s0, s1), Byte1(s1, s2)]);
  }

  lemma {:induction false} DecodeGroupsEncode(b: seq<Byte>)
    ensures DecodeGroups(Encode(b)) == Some(b)
    decreases |b|
  {
    if |b| == 1 {
      assert b == [b[0]];
      DecodeOneByte(b[0]);
    } else if |b| == 2 {
      assert b == [b[0], b[1]];
      DecodeTwoBytes(b[0], b[1]);
    } else if |b| == 3 {
      assert b == [b[0], b[1], b[2]] && b[3..] == [];
      assert Encode(b) == EncodeGroup(b[0], b[1], b[2]) + [];
      DecodeGroup(b[0], b[1], b[2], []);
    } else if |b| > 3 {
      DecodeGroupsEncode(b[3..]);
      DecodeLongerGroups(b);
    }
  }

  /** The step of the induction: a full group in front of a non-empty encoding. */
  lemma DecodeLongerGroups(b: seq<Byte>)
    requires |b| > 3 && DecodeGroups(Encode(b[3..])) == Some(b[3..])
    ensures DecodeGroups(Encode(b)) == Some(b)
  {
    EncodeFirstGroup(b);
    DecodeGroupBefore(b[0], b[1], b[2], Encode(b[3..]), b[3..]);
    FirstThree(b);
  }

  lemma FirstThree(b: seq<Byte>)
    requires |b| > 3
    ensures b == [b[0], b[1], b[2]] + b[3..]
  {
  }

  lemma EncodeFirstGroup(b: seq<Byte>)
    requires |b| > 3
    ensures Encode(b) == EncodeGroup(b[0], b[1], b[2]) + Encode(b[3..])
    ensures Encode(b[3..]) != []
  {
  }

  lemma DecodeGroupBefore(b0: Byte, b1: Byte, b2: Byte, rest: string, tail: seq<Byte>)
    requires rest != [] && DecodeGroups(rest) == Some(tail)
    ensures DecodeGroups(EncodeGroup(b0, b1, b2) + rest) == Some([b0, b1, b2] + tail)
  {
    DecodeGroup(b0, b1, b2, rest);
  }
}
