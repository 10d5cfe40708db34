/** Base64 with the standard alphabet and '=' padding (section 4 of RFC 4648),
    as Go's `base64.StdEncoding` writes it (`EncodeToString`) and reads it
    (`DecodeString`, which does not insist that unused trailing bits be
    zero). */
module Base64 {
  import opened Base

  /** A 6-bit group: the value of one base64 character. */
  type Sextet = v: int | 0 <= v < 64

  const Pad: char := '='

  /** The value of an alphabet character; None for anything else, '=' included. */
  function DecodeChar(c: char): (r: Option<Sextet>)
    ensures c == Pad ==> r.None?
  {
    if 'A' <= c <= 'Z' then Some(c as int - 'A' as int)
    else if 'a' <= c <= 'z' then Some(c as int - 'a' as int + 26)
    else if '0' <= c <= '9' then Some(c as int - '0' as int + 52)
    else if c == '+' then Some(62)
    else if c == '/' then Some(63)
    else None
  }

  /** The alphabet character of a 6-bit group. */
  function EncodeSextet(v: Sextet): (c: char)
    ensures DecodeChar(c) == Some(v)
  {
    if v < 26 then ('A' as int + v) as char
    else if v < 52 then ('a' as int + (v - 26)) as char
    else if v < 62 then ('0' as int + (v - 52)) as char
    else if v == 62 then '+'
    else '/'
  }

  function EncodeQuantum(b0: Byte, b1: Byte, b2: Byte): string
  {
    [EncodeSextet(b0 / 4), EncodeSextet((b0 % 4) * 16 + b1 / 16),
     EncodeSextet((b1 % 16) * 4 + b2 / 64), EncodeSextet(b2 % 64)]
  }

  /** `base64.StdEncoding.EncodeToString`: every three bytes become four
      characters; a final one or two bytes are padded with "==" or "=". */
  function Encode(b: seq<Byte>): (s: string)
    ensures |s| == 4 * ((|b| + 2) / 3)
    decreases |b|
  {
    if |b| == 0 then ""
    else if |b| == 1 then
      [EncodeSextet(b[0] / 4), EncodeSextet((b[0] % 4) * 16), Pad, Pad]
    else if |b| == 2 then
      [EncodeSextet(b[0] / 4), EncodeSextet((b[0] % 4) * 16 + b[1] / 16), EncodeSextet((b[1] % 16) * 4), Pad]
    else EncodeQuantum(b[0], b[1], b[2]) + Encode(b[3..])
  }

  /** The bytes of one four-character quantum. Only the last quantum of the
      input may end in "==" (one byte) or "=" (two bytes). */
  function DecodeQuantum(q: string, last: bool): Option<seq<Byte>>
    requires |q| == 4
  {
    var c0, c1, c2, c3 := DecodeChar(q[0]), DecodeChar(q[1]), DecodeChar(q[2]), DecodeChar(q[3]);
    if c0.None? || c1.None? then None
    else if last && q[2] == Pad && q[3] == Pad then
      Some([c0.value * 4 + c1.value / 16])
    else if last && q[3] == Pad then
      if c2.None? then None
      else Some([c0.value * 4 + c1.value / 16, (c1.value % 16) * 16 + c2.value / 4])
    else if c2.None? || c3.None? then None
    else
      Some([c0.value * 4 + c1.value / 16, (c1.value % 16) * 16 + c2.value / 4,
            (c2.value % 4) * 64 + c3.value])
  }

  /** `base64.StdEncoding.DecodeString`: the input is a whole number of
      quanta, each of alphabet characters, padding only at the very end;
      anything else is a `CorruptBase64` error. Line breaks, which Go skips,
      are not part of this model. */
  function Decode(s: string): (r: Result<seq<Byte>>)
    ensures r.Ok? ==> |s| % 4 == 0 && |r.value| <= 3 * (|s| / 4)
    decreases |s|
  {
    if |s| == 0 then Ok([])
    else if |s| < 4 then Err(CorruptBase64)
    else
      match DecodeQuantum(s[..4], |s| == 4)
      case None => Err(CorruptBase64)
      case Some(head) =>
        if |s| == 4 then Ok(head)
        else
          match Decode(s[4..])
          case Ok(tail) => Ok(head + tail)
          case Err(e) => Err(e)
  }

  lemma QuantumRoundTrip(b0: Byte, b1: Byte, b2: Byte, last: bool)
    ensures DecodeQuantum(EncodeQuantum(b0, b1, b2), last) == Some([b0, b1, b2])
  {
    var q := EncodeQuantum(b0, b1, b2);
    var v1, v2 := (b0 % 4) * 16 + b1 / 16, (b1 % 16) * 4 + b2 / 64;
    assert v1 / 16 == b0 % 4 && v1 % 16 == b1 / 16;
    assert v2 / 4 == b1 % 16 && v2 % 4 == b2 / 64;
    assert q[3] != Pad by { assert DecodeChar(q[3]).Some?; }
  }

  lemma SingleRoundTrip(b0: Byte)
    ensures Decode(Encode([b0])) == Ok([b0])
  {
    var s := Encode([b0]);
    var v1 := (b0 % 4) * 16;
    assert v1 / 16 == b0 % 4;
    assert s[..4] == s;
  }

  lemma PairRoundTrip(b0: Byte, b1: Byte)
    ensures Decode(Encode([b0, b1])) == Ok([b0, b1])
  {
    var s := Encode([b0, b1]);
    var v1, v2 := (b0 % 4) * 16 + b1 / 16, (b1 % 16) * 4;
    assert v1 / 16 == b0 % 4 && v1 % 16 == b1 / 16 && v2 / 4 == b1 % 16;
    assert s[2] != Pad by { assert DecodeChar(s[2]).Some?; }
    assert s[..4] == s;
  }

  /** Three bytes or more: the first quantum, then the rest. */
  lemma LeadingQuantum(b: seq<Byte>)
    requires |b| >= 3
    ensures Encode(b) == EncodeQuantum(b[0], b[1], b[2]) + Encode(b[3..])
  {
  }

  lemma TripleRoundTrip(b: seq<Byte>)
    requires |b| == 3
    ensures Decode(Encode(b)) == Ok(b)
  {
    LeadingQuantum(b);
    QuantumRoundTrip(b[0], b[1], b[2], true);
    assert Encode(b) == EncodeQuantum(b[0], b[1], b[2]);
    assert b == [b[0], b[1], b[2]];
  }

  /** A non-final quantum decodes in front of whatever follows it. */
  lemma DecodeQuantumThen(q: string, t: string, head: seq<Byte>, tail: seq<Byte>)
    requires |q| == 4 && |t| > 0 && DecodeQuantum(q, false) == Some(head) && Decode(t) == Ok(tail)
    ensures Decode(q + t) == Ok(head + tail)
  {
    assert (q + t)[..4] == q;
    assert (q + t)[4..] == t;
  }

  /** The first three bytes survive their quantum. */
  lemma HeadDecodes(b: seq<Byte>)
    requires |b| >= 3
    ensures DecodeQuantum(EncodeQuantum(b[0], b[1], b[2]), false) == Some(b[..3])
  {
    QuantumRoundTrip(b[0], b[1], b[2], false);
    assert [b[0], b[1], b[2]] == b[..3];
  }

  /** Decoding a split input gives the bytes it was split from. */
  lemma Rejoin(s: string, q: string, t: string, b: seq<Byte>)
    requires |b| >= 3 && s == q + t && Decode(q + t) == Ok(b[..3] + b[3..])
    ensures Decode(s) == Ok(b)
  {
    assert b[..3] + b[3..] == b;
  }

  /** A leading quantum decodes in front of whatever its tail decodes to. */
  lemma QuantumThenTail(b: seq<Byte>)
    requires |b| > 3 && Decode(Encode(b[3..])) == Ok(b[3..])
    ensures Decode(Encode(b)) == Ok(b)
  {
    var q, t := EncodeQuantum(b[0], b[1], b[2]), Encode(b[3..]);
    LeadingQuantum(b);
    HeadDecodes(b);
    assert |t| > 0 by { assert |b[3..]| > 0; }
    DecodeQuantumThen(q, t, b[..3], b[3..]);
    Rejoin(Encode(b), q, t, b);
  }

  /** Decoding undoes encoding, for every byte sequence. */
  lemma {:induction false} RoundTrip(b: seq<Byte>)
    ensures Decode(Encode(b)) == Ok(b)
    decreases |b|
  {
    if |b| == 1 {
      assert b == [b[0]];
      SingleRoundTrip(b[0]);
    } else if |b| == 2 {
      assert b == [b[0], b[1]];
      PairRoundTrip(b[0], b[1]);
    } else if |b| == 3 {
      TripleRoundTrip(b);
    } else if |b| > 3 {
      RoundTrip(b[3..]);
      QuantumThenTail(b);
    }
  }
}
