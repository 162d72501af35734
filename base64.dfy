/**
 * Base 64 encoding with the standard alphabet and padding, as defined in
 * section 4 of RFC 4648: every three bytes become four characters; a final
 * group of one or two bytes is completed with "==" or "=".  Decoding is
 * strict, as in the `base64` crate's STANDARD engine: the length must be a
 * multiple of four, padding must be canonical and the unused low bits of the
 * last character must be zero.
 */
module Base64 {
  import opened Wrappers
  import opened Text

  /** The character of a 6-bit value (table 1 of RFC 4648). */
  function CharOf(v: int): (c: char)
    requires 0 <= v < 64
    ensures c != '='
  {
    if v < 26 then ('A' as int + v) as char
    else if v < 52 then ('a' as int + (v - 26)) as char
    else if v < 62 then ('0' as int + (v - 52)) as char
    else if v == 62 then '+'
    else '/'
  }

  /** The 6-bit value of an alphabet character; None for any other character, '=' included. */
  function ValueOf(c: char): (r: Option<int>)
    ensures r.Some? ==> 0 <= r.value < 64
  {
    if 'A' <= c <= 'Z' then Some(c as int - 'A' as int)
    else if 'a' <= c <= 'z' then Some(c as int - 'a' as int + 26)
    else if '0' <= c <= '9' then Some(c as int - '0' as int + 52)
    else if c == '+' then Some(62)
    else if c == '/' then Some(63)
    else None
  }

  lemma ValueOfCharOf(v: int)
    requires 0 <= v < 64
    ensures ValueOf(CharOf(v)) == Some(v)
  {
  }

  lemma CharOfValueOf(c: char)
    requires ValueOf(c).Some?
    ensures CharOf(ValueOf(c).value) == c
  {
  }

  /** Three bytes as four characters. */
  function EncodeTriple(b0: byte, b1: byte, b2: byte): seq<char>
  {
    [CharOf(b0 / 4), CharOf(b0 % 4 * 16 + b1 / 16), CharOf(b1 % 16 * 4 + b2 / 64), CharOf(b2 % 64)]
  }

  /** A final group of two bytes: three characters and one pad. */
  function EncodePair(b0: byte, b1: byte): seq<char>
  {
    [CharOf(b0 / 4), CharOf(b0 % 4 * 16 + b1 / 16), CharOf(b1 % 16 * 4), '=']
  }

  /** A final single byte: two characters and two pads. */
  function EncodeSingle(b0: byte): seq<char>
  {
    [CharOf(b0 / 4), CharOf(b0 % 4 * 16), '=', '=']
  }

  function Encode(b: seq<byte>): (r: seq<char>)
    ensures |r| == (|b| + 2) / 3 * 4
    decreases |b|
  {
    if |b| == 0 then []
    else if |b| == 1 then EncodeSingle(b[0])
    else if |b| == 2 then EncodePair(b[0], b[1])
    else EncodeTriple(b[0], b[1], b[2]) + Encode(b[3..])
  }

  /** The three bytes that four 6-bit values spell. */
  function QuadBytes(v0: int, v1: int, v2: int, v3: int): seq<byte>
    requires 0 <= v0 < 64 && 0 <= v1 < 64 && 0 <= v2 < 64 && 0 <= v3 < 64
  {
    [v0 * 4 + v1 / 16, v1 % 16 * 16 + v2 / 4, v2 % 4 * 64 + v3]
  }

  /** Four alphabet characters as three bytes. */
  function DecodeQuad(c0: char, c1: char, c2: char, c3: char): Option<seq<byte>>
  {
    match (ValueOf(c0), ValueOf(c1), ValueOf(c2), ValueOf(c3))
    case (Some(v0), Some(v1), Some(v2), Some(v3)) => Some(QuadBytes(v0, v1, v2, v3))
    case _ => None
  }

  /**
   * The last group of four characters, which may carry one or two pads; the
   * bits a pad leaves over must be zero.
   */
  function DecodeLast(c0: char, c1: char, c2: char, c3: char): Option<seq<byte>>
  {
    if c3 != '=' then DecodeQuad(c0, c1, c2, c3)
    else if c2 == '=' then
      match (ValueOf(c0), ValueOf(c1))
      case (Some(v0), Some(v1)) =>
        if v1 % 16 == 0 then Some(QuadBytes(v0, v1, 0, 0)[..1]) else None
      case _ => None
    else
      match (ValueOf(c0), ValueOf(c1), ValueOf(c2))
      case (Some(v0), Some(v1), Some(v2)) =>
        if v2 % 4 == 0 then Some(QuadBytes(v0, v1, v2, 0)[..2]) else None
      case _ => None
  }

  function Decode(s: seq<char>): Option<seq<byte>>
    decreases |s|
  {
    if |s| == 0 then Some([])
    else if |s| < 4 then None
    else if |s| == 4 then DecodeLast(s[0], s[1], s[2], s[3])
    else
      match DecodeQuad(s[0], s[1], s[2], s[3])
      case None => None
      case Some(head) =>
        match Decode(s[4..])
        case None => None
        case Some(tail) => Some(head + tail)
  }

  /** The 6-bit values of three bytes spell the bytes back. */
  lemma QuadBytesOfTriple(b0: byte, b1: byte, b2: byte)
    ensures QuadBytes(b0 / 4, b0 % 4 * 16 + b1 / 16, b1 % 16 * 4 + b2 / 64, b2 % 64) == [b0, b1, b2]
  {
  }

  /** The bytes four 6-bit values spell give the values back. */
  lemma TripleOfQuadBytes(v0: int, v1: int, v2: int, v3: int)
    requires 0 <= v0 < 64 && 0 <= v1 < 64 && 0 <= v2 < 64 && 0 <= v3 < 64
    ensures var b := QuadBytes(v0, v1, v2, v3);
      b[0] / 4 == v0 && b[0] % 4 * 16 + b[1] / 16 == v1 && b[1] % 16 * 4 + b[2] / 64 == v2 && b[2] % 64 == v3
  {
  }

  lemma DecodeQuadChars(v0: int, v1: int, v2: int, v3: int)
    requires 0 <= v0 < 64 && 0 <= v1 < 64 && 0 <= v2 < 64 && 0 <= v3 < 64
    ensures DecodeQuad(CharOf(v0), CharOf(v1), CharOf(v2), CharOf(v3)) == Some(QuadBytes(v0, v1, v2, v3))
  {
    ValueOfCharOf(v0);
    ValueOfCharOf(v1);
    ValueOfCharOf(v2);
    ValueOfCharOf(v3);
  }

  lemma DecodeEncodeTriple(b0: byte, b1: byte, b2: byte)
    ensures var e := EncodeTriple(b0, b1, b2); DecodeQuad(e[0], e[1], e[2], e[3]) == Some([b0, b1, b2])
  {
    DecodeQuadChars(b0 / 4, b0 % 4 * 16 + b1 / 16, b1 % 16 * 4 + b2 / 64, b2 % 64);
    QuadBytesOfTriple(b0, b1, b2);
  }

  lemma PairArith(b0: byte, b1: byte)
    ensures 0 <= b0 % 4 * 16 + b1 / 16 < 64 && 0 <= b1 % 16 * 4 < 64 && (b1 % 16 * 4) % 4 == 0
    ensures QuadBytes(b0 / 4, b0 % 4 * 16 + b1 / 16, b1 % 16 * 4, 0) == [b0, b1, 0]
  {
  }

  lemma SingleArith(b0: byte)
    ensures 0 <= b0 % 4 * 16 < 64 && (b0 % 4 * 16) % 16 == 0
    ensures QuadBytes(b0 / 4, b0 % 4 * 16, 0, 0) == [b0, 0, 0]
  {
  }

  lemma DecodeEncodePair(b0: byte, b1: byte)
    ensures var e := EncodePair(b0, b1); DecodeLast(e[0], e[1], e[2], e[3]) == Some([b0, b1])
  {
    var v0, v1, v2 := b0 / 4, b0 % 4 * 16 + b1 / 16, b1 % 16 * 4;
    PairArith(b0, b1);
    var e := EncodePair(b0, b1);
    assert e[0] == CharOf(v0) && e[1] == CharOf(v1) && e[2] == CharOf(v2) && e[3] == '=';
    ValueOfCharOf(v0);
    ValueOfCharOf(v1);
    ValueOfCharOf(v2);
    assert DecodeLast(e[0], e[1], e[2], e[3]) == Some(QuadBytes(v0, v1, v2, 0)[..2]);
    assert [b0, b1, 0][..2] == [b0, b1];
  }

  lemma DecodeEncodeSingle(b0: byte)
    ensures var e := EncodeSingle(b0); DecodeLast(e[0], e[1], e[2], e[3]) == Some([b0])
  {
    var v0, v1 := b0 / 4, b0 % 4 * 16;
    SingleArith(b0);
    var e := EncodeSingle(b0);
    assert e[0] == CharOf(v0) && e[1] == CharOf(v1) && e[2] == '=' && e[3] == '=';
    ValueOfCharOf(v0);
    ValueOfCharOf(v1);
    assert DecodeLast(e[0], e[1], e[2], e[3]) == Some(QuadBytes(v0, v1, 0, 0)[..1]);
    assert [b0, 0, 0][..1] == [b0];
  }

  /** A full leading group followed by more text decodes group by group. */
  lemma DecodeCons(head: seq<char>, tail: seq<char>)
    requires |head| == 4 && |tail| > 0
    requires DecodeQuad(head[0], head[1], head[2], head[3]).Some?
    requires Decode(tail).Some?
    ensures Decode(head + tail) == Some(DecodeQuad(head[0], head[1], head[2], head[3]).value + Decode(tail).value)
  {
    var s := head + tail;
    assert s[0] == head[0] && s[1] == head[1] && s[2] == head[2] && s[3] == head[3];
    assert s[4..] == tail;
  }

  lemma DecodeEncodeShort(b: seq<byte>)
    requires 1 <= |b| <= 2
    ensures Decode(Encode(b)) == Some(b)
  {
    if |b| == 1 {
      DecodeEncodeSingle(b[0]);
      assert b == [b[0]];
    } else {
      DecodeEncodePair(b[0], b[1]);
      assert b == [b[0], b[1]];
    }
  }

  lemma DecodeEncodeThree(b: seq<byte>)
    requires |b| == 3
    ensures Decode(Encode(b)) == Some(b)
  {
    DecodeEncodeTriple(b[0], b[1], b[2]);
    assert Encode(b) == EncodeTriple(b[0], b[1], b[2]);
    assert b == [b[0], b[1], b[2]];
  }

  /** Decoding undoes encoding. */
  lemma {:induction false} DecodeEncode(b: seq<byte>)
    ensures Decode(Encode(b)) == Some(b)
    decreases |b|
  {
    if 1 <= |b| <= 2 {
      DecodeEncodeShort(b);
    } else if |b| == 3 {
      DecodeEncodeThree(b);
    } else if |b| > 3 {
      var head := EncodeTriple(b[0], b[1], b[2]);
      DecodeEncodeTriple(b[0], b[1], b[2]);
      DecodeEncode(b[3..]);
      DecodeCons(head, Encode(b[3..]));
      assert b == [b[0], b[1], b[2]] + b[3..];
    }
  }

  lemma EncodeDecodeQuad(c0: char, c1: char, c2: char, c3: char)
    requires DecodeQuad(c0, c1, c2, c3).Some?
    ensures var b := DecodeQuad(c0, c1, c2, c3).value; EncodeTriple(b[0], b[1], b[2]) == [c0, c1, c2, c3]
  {
    var v0, v1, v2, v3 := ValueOf(c0).value, ValueOf(c1).value, ValueOf(c2).value, ValueOf(c3).value;
    TripleOfQuadBytes(v0, v1, v2, v3);
    CharOfValueOf(c0);
    CharOfValueOf(c1);
    CharOfValueOf(c2);
    CharOfValueOf(c3);
  }

  lemma PairArithBack(v0: int, v1: int, v2: int)
    requires 0 <= v0 < 64 && 0 <= v1 < 64 && 0 <= v2 < 64 && v2 % 4 == 0
    ensures var q := QuadBytes(v0, v1, v2, 0);
      q[0] / 4 == v0 && q[0] % 4 * 16 + q[1] / 16 == v1 && q[1] % 16 * 4 == v2
  {
  }

  lemma SingleArithBack(v0: int, v1: int)
    requires 0 <= v0 < 64 && 0 <= v1 < 64 && v1 % 16 == 0
    ensures var q := QuadBytes(v0, v1, 0, 0); q[0] / 4 == v0 && q[0] % 4 * 16 == v1
  {
  }

  lemma EncodeDecodePair(c0: char, c1: char, c2: char)
    requires DecodeLast(c0, c1, c2, '=').Some? && c2 != '='
    ensures var b := DecodeLast(c0, c1, c2, '=').value; |b| == 2 && EncodePair(b[0], b[1]) == [c0, c1, c2, '=']
  {
    var v0, v1, v2 := ValueOf(c0).value, ValueOf(c1).value, ValueOf(c2).value;
    var q := QuadBytes(v0, v1, v2, 0);
    assert DecodeLast(c0, c1, c2, '=') == Some(q[..2]);
    PairArithBack(v0, v1, v2);
    assert EncodePair(q[0], q[1]) == [CharOf(v0), CharOf(v1), CharOf(v2), '='];
    CharOfValueOf(c0);
    CharOfValueOf(c1);
    CharOfValueOf(c2);
  }

  lemma EncodeDecodeSingle(c0: char, c1: char)
    requires DecodeLast(c0, c1, '=', '=').Some?
    ensures var b := DecodeLast(c0, c1, '=', '=').value; |b| == 1 && EncodeSingle(b[0]) == [c0, c1, '=', '=']
  {
    var v0, v1 := ValueOf(c0).value, ValueOf(c1).value;
    var q := QuadBytes(v0, v1, 0, 0);
    assert DecodeLast(c0, c1, '=', '=') == Some(q[..1]);
    SingleArithBack(v0, v1);
    assert EncodeSingle(q[0]) == [CharOf(v0), CharOf(v1), '=', '='];
    CharOfValueOf(c0);
    CharOfValueOf(c1);
  }

  lemma EncodeDecodeLast(c0: char, c1: char, c2: char, c3: char)
    requires DecodeLast(c0, c1, c2, c3).Some?
    ensures var b := DecodeLast(c0, c1, c2, c3).value;
      1 <= |b| <= 3 && Encode(b) == [c0, c1, c2, c3]
  {
    var b := DecodeLast(c0, c1, c2, c3).value;
    if c3 != '=' {
      EncodeDecodeQuad(c0, c1, c2, c3);
      assert b[3..] == [];
    } else if c2 == '=' {
      EncodeDecodeSingle(c0, c1);
    } else {
      EncodeDecodePair(c0, c1, c2);
    }
  }

  /** Only canonical encodings decode: a decoded text is the encoding of its bytes. */
  lemma {:induction false} EncodeDecode(s: seq<char>)
    requires Decode(s).Some?
    ensures Encode(Decode(s).value) == s
    decreases |s|
  {
    if |s| == 4 {
      EncodeDecodeOne(s);
    } else if |s| > 4 {
      EncodeDecodeLongStep(s);
      EncodeDecode(s[4..]);
      EncodeDecodeStep(s, DecodeQuad(s[0], s[1], s[2], s[3]).value, Decode(s[4..]).value);
    }
  }

  lemma EncodeDecodeOne(s: seq<char>)
    requires |s| == 4 && Decode(s).Some?
    ensures Encode(Decode(s).value) == s
  {
    EncodeDecodeLast(s[0], s[1], s[2], s[3]);
    assert s == [s[0], s[1], s[2], s[3]];
  }

  lemma EncodeDecodeStep(s: seq<char>, head: seq<byte>, tail: seq<byte>)
    requires |s| > 4 && DecodeQuad(s[0], s[1], s[2], s[3]) == Some(head)
    requires Encode(tail) == s[4..]
    ensures Encode(head + tail) == s
  {
    EncodeDecodeQuad(s[0], s[1], s[2], s[3]);
    assert s[..4] == [s[0], s[1], s[2], s[3]];
    EncodeDecodeJoin(head, tail, s[..4], s[4..]);
    assert s == s[..4] + s[4..];
  }

  /** Unfolds Decode on a text longer than one group. */
  lemma EncodeDecodeLongStep(s: seq<char>)
    requires |s| > 4 && Decode(s).Some?
    ensures DecodeQuad(s[0], s[1], s[2], s[3]).Some? && Decode(s[4..]).Some?
    ensures Decode(s).value == DecodeQuad(s[0], s[1], s[2], s[3]).value + Decode(s[4..]).value
  {
  }

  lemma EncodeDecodeJoin(head: seq<byte>, tail: seq<byte>, quad: seq<char>, rest: seq<char>)
    requires |head| == 3 && EncodeTriple(head[0], head[1], head[2]) == quad
    requires Encode(tail) == rest && |rest| > 0
    ensures Encode(head + tail) == quad + rest
  {
    NonEmptyEncoding(tail);
    EncodeCons(head, tail);
  }

  lemma NonEmptyEncoding(b: seq<byte>)
    ensures |Encode(b)| > 0 <==> |b| > 0
  {
  }

  /** Encoding a full group followed by more bytes encodes group by group. */
  lemma EncodeCons(head: seq<byte>, tail: seq<byte>)
    requires |head| == 3 && |tail| > 0
    ensures Encode(head + tail) == EncodeTriple(head[0], head[1], head[2]) + Encode(tail)
  {
    var b := head + tail;
    assert b[0] == head[0] && b[1] == head[1] && b[2] == head[2];
    assert b[3..] == tail;
  }
}
