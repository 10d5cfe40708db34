/** Buffers and images whose bytes are embedded in their URI as a base64
    data URI ("data:<mime>;base64,<payload>", RFC 2397). */
module Resources {
  import opened Base
  import Base64

  /** The three recognised data-URI prefixes; none of them includes the comma
      that separates it from the payload. */
  const OctetStreamPrefix: string := "data:application/octet-stream;base64"
  const PngPrefix: string := "data:image/png;base64"
  const JpegPrefix: string := "data:image/jpeg;base64"

  /** A glTF buffer: where its bytes come from, how many there are meant to
      be, and the bytes once loaded (empty until then). */
  datatype Buffer = Buffer(uri: string, byteLength: U32, data: seq<Byte>)

  /** A glTF image; only its URI takes part in decoding its bytes. */
  datatype Image = Image(uri: string)

  /** `Buffer.IsEmbeddedResource`: the URI starts with the octet-stream
      data-URI prefix. */
  function IsEmbeddedResource(b: Buffer): (r: bool)
    ensures r <==> exists rest :: b.uri == OctetStreamPrefix + rest
  {
    if OctetStreamPrefix <= b.uri then
      assert b.uri == OctetStreamPrefix + b.uri[|OctetStreamPrefix|..];
      true
    else false
  }

  /** `Buffer.EmbeddedResource`: the URI is rewritten to carry the buffer's
      own bytes; nothing else of the buffer changes. */
  function EmbeddedResource(b: Buffer): (r: Buffer)
    ensures IsEmbeddedResource(r)
    ensures r.byteLength == b.byteLength && r.data == b.data
  {
    b.(uri := OctetStreamPrefix + "," + Base64.Encode(b.data))
  }

  /** Go's `uri[len(prefix)+1:]` as written: None where the slice expression
      is out of range, which at run time is a panic. */
  function PayloadAsWritten(uri: string, prefix: string): (r: Option<string>)
    ensures r.None? <==> |uri| <= |prefix|
  {
    if |prefix| + 1 <= |uri| then Some(uri[|prefix| + 1..]) else None
  }

  /** A URI that is exactly one of the prefixes passes the prefix test and
      then makes the slice panic. */
  lemma BarePrefixPanics()
    ensures OctetStreamPrefix <= OctetStreamPrefix && PayloadAsWritten(OctetStreamPrefix, OctetStreamPrefix).None?
    ensures PngPrefix <= PngPrefix && PayloadAsWritten(PngPrefix, PngPrefix).None?
    ensures JpegPrefix <= JpegPrefix && PayloadAsWritten(JpegPrefix, JpegPrefix).None?
  {
  }

  /** The payload of a data URI: whatever follows the prefix and the one
      separator after it. Go cuts one byte past the prefix; a separator
      outside ASCII is several bytes in UTF-8, so what is left starts with a
      continuation byte, which base64 rejects. A URI that stops at the prefix
      has no payload and is reported as malformed rather than crashing. */
  function Payload(uri: string, prefix: string): (r: Result<string>)
    requires prefix <= uri
    ensures r.Ok? <==> PayloadAsWritten(uri, prefix).Some? && uri[|prefix|] as int < 0x80
    ensures r.Ok? ==> PayloadAsWritten(uri, prefix) == Some(r.value)
    ensures r.Ok? ==> uri == prefix + [uri[|prefix|]] + r.value
    ensures PayloadAsWritten(uri, prefix).None? ==> r == Err(MalformedDataUri(uri))
    ensures PayloadAsWritten(uri, prefix).Some? && uri[|prefix|] as int >= 0x80 ==> r == Err(CorruptBase64)
  {
    if |uri| <= |prefix| then Err(MalformedDataUri(uri))
    else if uri[|prefix|] as int >= 0x80 then Err(CorruptBase64)
    else
      assert uri == uri[..|prefix|] + [uri[|prefix|]] + uri[|prefix| + 1..];
      Ok(uri[|prefix| + 1..])
  }

  /** `Buffer.marshalData`: the bytes carried by an embedded URI. A URI that
      is not embedded gives no bytes and no error; a payload that is not
      base64 gives no bytes and the error; a payload that decodes to nothing
      gives no bytes and no error. */
  function MarshalData(b: Buffer): (r: (seq<Byte>, Option<Error>))
    ensures !IsEmbeddedResource(b) ==> r == ([], None)
    ensures r.1.Some? ==> r.0 == []
    ensures r.0 != [] ==>
              && IsEmbeddedResource(b) && r.1.None?
              && Payload(b.uri, OctetStreamPrefix).Ok?
              && Base64.Decode(Payload(b.uri, OctetStreamPrefix).value) == Ok(r.0)
    ensures IsEmbeddedResource(b) && r == ([], None) ==>
              && Payload(b.uri, OctetStreamPrefix).Ok?
              && Base64.Decode(Payload(b.uri, OctetStreamPrefix).value) == Ok([])
    // an embedded URI fails exactly when its payload is missing or is not base64
    ensures IsEmbeddedResource(b) ==>
              (r.1.Some? <==> Payload(b.uri, OctetStreamPrefix).Err? || Base64.Decode(Payload(b.uri, OctetStreamPrefix).value).Err?)
    ensures IsEmbeddedResource(b) && Payload(b.uri, OctetStreamPrefix).Err? ==>
              r == ([], Some(Payload(b.uri, OctetStreamPrefix).error))
    ensures IsEmbeddedResource(b) && Payload(b.uri, OctetStreamPrefix).Ok? && Base64.Decode(Payload(b.uri, OctetStreamPrefix).value).Err? ==>
              r == ([], Some(Base64.Decode(Payload(b.uri, OctetStreamPrefix).value).error))
    // and otherwise gives every decoded byte
    ensures IsEmbeddedResource(b) && Payload(b.uri, OctetStreamPrefix).Ok? && Base64.Decode(Payload(b.uri, OctetStreamPrefix).value).Ok? ==>
              r == (Base64.Decode(Payload(b.uri, OctetStreamPrefix).value).value, None)
  {
    if !IsEmbeddedResource(b) then ([], None)
    else
      match Payload(b.uri, OctetStreamPrefix)
      case Err(e) => ([], Some(e))
      case Ok(p) =>
        match Base64.Decode(p)
        case Err(e) => ([], Some(e))
        case Ok(sl) => if |sl| == 0 then ([], None) else (sl, None)
  }

  /** After `EmbeddedResource`, the buffer's bytes are read back unchanged
      from its URI (and an empty buffer reads back as no bytes, no error). */
  lemma {:induction false} EmbeddedRoundTrip(b: Buffer)
    ensures IsEmbeddedResource(EmbeddedResource(b))
    ensures MarshalData(EmbeddedResource(b)) == (b.data, None)
  {
    var e := EmbeddedResource(b);
    var enc := Base64.Encode(b.data);
    assert e.uri == OctetStreamPrefix + [','] + enc;
    assert e.uri[|OctetStreamPrefix| + 1..] == enc;
    Base64.RoundTrip(b.data);
  }

  /** The data URI "data:application/octet-stream;base64,QUJD" carries the
      three bytes "ABC". */
  lemma DecodesAbc()
    ensures MarshalData(Buffer("data:application/octet-stream;base64,QUJD", 3, [])) == ([65, 66, 67], None)
  {
    var uri := "data:application/octet-stream;base64,QUJD";
    assert Payload(uri, OctetStreamPrefix) == Ok("QUJD");
  }

  /** A separator outside ASCII leaves a continuation byte at the start of
      the payload Go decodes, so the buffer fails with a base64 error. */
  lemma NonAsciiSeparatorRejected()
    ensures MarshalData(Buffer("data:application/octet-stream;base64\U{e9}QUJD", 3, [])) == ([], Some(CorruptBase64))
  {
    var uri := "data:application/octet-stream;base64\U{e9}QUJD";
    assert OctetStreamPrefix <= uri;
    assert uri[|OctetStreamPrefix|] == '\U{e9}';
  }

  /** `Image.IsEmbeddedResource`: the URI starts with the PNG or the JPEG
      data-URI prefix, and it cannot start with both. */
  function ImageIsEmbeddedResource(im: Image): (r: bool)
    ensures r <==> (exists rest :: im.uri == PngPrefix + rest) || (exists rest :: im.uri == JpegPrefix + rest)
    ensures !(PngPrefix <= im.uri && JpegPrefix <= im.uri)
  {
    assert !(PngPrefix <= im.uri && JpegPrefix <= im.uri) by {
      if PngPrefix <= im.uri { assert im.uri[11] == 'p' && JpegPrefix[11] == 'j'; }
    }
    if PngPrefix <= im.uri then
      assert im.uri == PngPrefix + im.uri[|PngPrefix|..];
      true
    else if JpegPrefix <= im.uri then
      assert im.uri == JpegPrefix + im.uri[|JpegPrefix|..];
      true
    else false
  }

  /** `Image.MarshalData`: no bytes and no error for a URI with neither image
      prefix; otherwise the base64 payload after the JPEG prefix if the URI
      has it, else after the PNG prefix. */
  function ImageMarshalData(im: Image): (r: Result<seq<Byte>>)
    ensures !ImageIsEmbeddedResource(im) ==> r == Ok([])
    ensures JpegPrefix <= im.uri ==>
              r == match Payload(im.uri, JpegPrefix) case Ok(p) => Base64.Decode(p) case Err(e) => Err(e)
    ensures PngPrefix <= im.uri ==>
              r == match Payload(im.uri, PngPrefix) case Ok(p) => Base64.Decode(p) case Err(e) => Err(e)
  {
    if !ImageIsEmbeddedResource(im) then Ok([])
    else
      assert PngPrefix <= im.uri ==> !(JpegPrefix <= im.uri) by {
        if PngPrefix <= im.uri { assert im.uri[11] == 'p' && JpegPrefix[11] == 'j'; }
      }
      var prefix := if JpegPrefix <= im.uri then JpegPrefix else PngPrefix;
      match Payload(im.uri, prefix)
      case Err(e) => Err(e)
      case Ok(p) => Base64.Decode(p)
  }

  /** An image whose bytes are written into a PNG or JPEG data URI reads them
      back unchanged. */
  lemma {:induction false} ImageRoundTrip(data: seq<Byte>, jpeg: bool)
    ensures var prefix := if jpeg then JpegPrefix else PngPrefix;
            var im := Image(prefix + "," + Base64.Encode(data));
            ImageIsEmbeddedResource(im) && ImageMarshalData(im) == Ok(data)
  {
    var prefix := if jpeg then JpegPrefix else PngPrefix;
    var enc := Base64.Encode(data);
    var uri := prefix + [','] + enc;
    assert uri[|prefix| + 1..] == enc;
    assert !jpeg ==> !(JpegPrefix <= uri) by {
      if !jpeg { assert uri[11] == 'p' && JpegPrefix[11] == 'j'; }
    }
    Base64.RoundTrip(data);
  }
}
