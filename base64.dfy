/** The base64 encoding of section 4 of RFC 4648, as Python's `base64.b64encode`
    produces it (standard alphabet, '=' padding, no line breaks), and a decoder
    that inverts it. */
module Base64 {
  import opened Wrappers

  type Byte = b: int | 0 <= b < 256

  /** A 6-bit group, the value one base64 character stands for. */
  type Sextet = v: int | 0 <= v < 64

  const Pad: char := '='

  /** Table 1 of RFC 4648: A-Z, a-z, 0-9, '+', '/'. */
  function CharOf(v: Sextet): (c: char)
    ensures c != Pad && c != '?' && c as int < 128
  {
    if v < 26 then ('A' as int + v) as char
    else if v < 52 then ('a' as int + (v - 26)) as char
    else if v < 62 then ('0' as int + (v - 52)) as char
    else if v == 62 then '+'
    else '/'
  }

  /** The inverse of Table 1; `None` for a character outside the alphabet. */
  function ValueOf(c: char): (r: Option<Sextet>)
    ensures r.Some? ==> CharOf(r.value) == c
  {
    if 'A' <= c <= 'Z' then Some(c as int - 'A' as int)
    else if 'a' <= c <= 'z' then Some(c as int - 'a' as int + 26)
    else if '0' <= c <= '9' then Some(c as int - '0' as int + 52)
    else if c == '+' then Some(62)
    else if c == '/' then Some(63)
    else None
  }

  /** Every sextet has its own character: `CharOf` and `ValueOf` are inverse bijections
      between the 64 values and the 64 alphabet characters. */
  lemma ValueOfCharOf(v: Sextet)
    ensures ValueOf(CharOf(v)) == Some(v)
  {
    if v < 26 {
    } else if v < 52 {
    } else if v < 62 {
    }
  }

  /** A character that may appear in encoded output. */
  predicate IsBase64Char(c: char)
  {
    ValueOf(c).Some? || c == Pad
  }

  /** Three input bytes become four characters (section 4 of RFC 4648). */
  function EncodeTriple(b0: Byte, b1: Byte, b2: Byte): string
  {
    [CharOf(b0 / 4), CharOf((b0 % 4) * 16 + b1 / 16), CharOf((b1 % 16) * 4 + b2 / 64), CharOf(b2 % 64)]
  }

  /** A final quantum of two bytes: three characters and one '='. */
  function EncodePair(b0: Byte, b1: Byte): string
  {
    [CharOf(b0 / 4), CharOf((b0 % 4) * 16 + b1 / 16), CharOf((b1 % 16) * 4), Pad]
  }

  /** A final quantum of one byte: two characters and "==". */
  function EncodeSingle(b0: Byte): string
  {
    [CharOf(b0 / 4), CharOf((b0 % 4) * 16), Pad, Pad]
  }

  /** `base64.b64encode(data).decode()`. */
  function Encode(data: seq<Byte>): (s: string)
    ensures |s| == 4 * ((|data| + 2) / 3)
    ensures forall i | 0 <= i < |s| :: IsBase64Char(s[i]) && s[i] != '?' && s[i] as int < 128
    decreases |data|
  {
    if |data| == 0 then ""
    else if |data| == 1 then EncodeSingle(data[0])
    else if |data| == 2 then EncodePair(data[0], data[1])
    else EncodeTriple(data[0], data[1], data[2]) + Encode(data[3..])
  }

  /** Four alphabet characters back to three bytes. */
  function DecodeQuad(q: string): Option<seq<Byte>>
    requires |q| == 4
  {
    match (ValueOf(q[0]), ValueOf(q[1]), ValueOf(q[2]), ValueOf(q[3]))
    case (Some(c0), Some(c1), Some(c2), Some(c3)) =>
      Some([c0 as int * 4 + c1 / 16, (c1 % 16) as int * 16 + c2 / 4, (c2 % 4) as int * 64 + c3])
    case _ => None
  }

  /** The last quantum, which may carry one or two '=' pad characters. */
  function DecodeLast(q: string): Option<seq<Byte>>
    requires |q| == 4
  {
    if q[2] == Pad && q[3] == Pad then
      match (ValueOf(q[0]), ValueOf(q[1]))
      case (Some(c0), Some(c1)) => Some([c0 as int * 4 + c1 / 16])
      case _ => None
    else if q[3] == Pad then
      match (ValueOf(q[0]), ValueOf(q[1]), ValueOf(q[2]))
      case (Some(c0), Some(c1), Some(c2)) => Some([c0 as int * 4 + c1 / 16, (c1 % 16) as int * 16 + c2 / 4])
      case _ => None
    else DecodeQuad(q)
  }

  /** Base64 text back to bytes; `None` for text that is not base64 (wrong length,
      a character outside the alphabet, padding anywhere but the end). */
  function Decode(s: string): Option<seq<Byte>>
    decreases |s|
  {
    if |s| == 0 then Some([])
    else if |s| < 4 then None
    else if |s| == 4 then DecodeLast(s)
    else match DecodeQuad(s[..4])
      case None => None
      case Some(head) =>
        match Decode(s[4..])
        case None => None
        case Some(tail) => Some(head + tail)
  }

  lemma TripleRoundTrip(b0: Byte, b1: Byte, b2: Byte)
    ensures DecodeQuad(EncodeTriple(b0, b1, b2)) == Some([b0, b1, b2])
    ensures DecodeLast(EncodeTriple(b0, b1, b2)) == Some([b0, b1, b2])
  {
    var c0: Sextet, c1: Sextet, c2: Sextet, c3: Sextet := b0 / 4, (b0 % 4) * 16 + b1 / 16, (b1 % 16) * 4 + b2 / 64, b2 % 64;
    ValueOfCharOf(c0);
    ValueOfCharOf(c1);
    ValueOfCharOf(c2);
    ValueOfCharOf(c3);
    assert c1 / 16 == b0 % 4 && c1 % 16 == b1 / 16;
    assert c2 / 4 == b1 % 16 && c2 % 4 == b2 / 64;
  }

  lemma PairRoundTrip(b0: Byte, b1: Byte)
    ensures DecodeLast(EncodePair(b0, b1)) == Some([b0, b1])
  {
    var c0: Sextet, c1: Sextet, c2: Sextet := b0 / 4, (b0 % 4) * 16 + b1 / 16, (b1 % 16) * 4;
    ValueOfCharOf(c0);
    ValueOfCharOf(c1);
    ValueOfCharOf(c2);
    assert c1 / 16 == b0 % 4 && c1 % 16 == b1 / 16;
    assert c2 / 4 == b1 % 16;
  }

  lemma SingleRoundTrip(b0: Byte)
    ensures DecodeLast(EncodeSingle(b0)) == Some([b0])
  {
    var c0: Sextet, c1: Sextet := b0 / 4, (b0 % 4) * 16;
    ValueOfCharOf(c0);
    ValueOfCharOf(c1);
    assert c1 / 16 == b0 % 4;
  }

  /** Byte sequences shorter than one full quantum. */
  lemma ShortRoundTrip(data: seq<Byte>)
    requires |data| <= 2
    ensures Decode(Encode(data)) == Some(data)
  {
    if |data| == 1 {
      assert Encode(data) == EncodeSingle(data[0]);
      SingleRoundTrip(data[0]);
      assert data == [data[0]];
    } else if |data| == 2 {
      assert Encode(data) == EncodePair(data[0], data[1]);
      PairRoundTrip(data[0], data[1]);
      assert data == [data[0], data[1]];
    }
  }

  /** Decoding consumes a leading full quantum and then decodes the rest. */
  lemma DecodeConcat(head: string, tail: string, bytes: seq<Byte>)
    requires |head| == 4 && |tail| > 0
    requires DecodeQuad(head) == Some(bytes)
    ensures Decode(head + tail) == match Decode(tail)
                                   case None => None
                                   case Some(rest) => Some(bytes + rest)
  {
    var s := head + tail;
    assert s[..4] == head;
    assert s[4..] == tail;
  }

  /** Exactly one full quantum. */
  lemma {:induction false} QuantumRoundTrip(data: seq<Byte>)
    requires |data| == 3
    ensures Decode(Encode(data)) == Some(data)
  {
    assert Encode(data) == EncodeTriple(data[0], data[1], data[2]) + Encode(data[3..]);
    assert Encode(data[3..]) == "";
    assert Encode(data) == EncodeTriple(data[0], data[1], data[2]);
    TripleRoundTrip(data[0], data[1], data[2]);
    assert data == [data[0], data[1], data[2]];
  }

  /** A full quantum followed by more bytes decodes to its three bytes followed by
      whatever the text of the rest decodes to. */
  lemma {:induction false} QuantumConcat(data: seq<Byte>)
    requires |data| > 3
    requires Decode(Encode(data[3..])) == Some(data[3..])
    ensures Decode(Encode(data)) == Some(data)
  {
    var head := EncodeTriple(data[0], data[1], data[2]);
    var tail := Encode(data[3..]);
    assert Encode(data) == head + tail;
    TripleRoundTrip(data[0], data[1], data[2]);
    DecodeConcat(head, tail, [data[0], data[1], data[2]]);
    assert data == [data[0], data[1], data[2]] + data[3..];
  }

  /** Decoding the base64 text of any byte sequence gives back exactly that sequence. */
  lemma {:induction false} DecodeEncode(data: seq<Byte>)
    ensures Decode(Encode(data)) == Some(data)
    decreases |data|
  {
    if |data| <= 2 {
      ShortRoundTrip(data);
    } else if |data| == 3 {
      QuantumRoundTrip(data);
    } else {
      DecodeEncode(data[3..]);
      QuantumConcat(data);
    }
  }
}
