# glTF decode pipeline: a Dafny model

This project models the core of a Go glTF 2.0 library in two parts.

The first part is **the decoder** (`decoder.go`).
- It detects GLB framing on a byte stream, with the layout of sections 4.4 (File Header) and 4.5 (Chunks) of the Khronos glTF 2.0 specification.
- It enforces the read quotas.
- It resolves every buffer's bytes:
  - buffer 0 of a GLB file comes from the BIN chunk;
  - an embedded buffer comes from its base64 data URI (RFC 2397, section 4 of RFC 4648);
  - any other buffer comes from the caller's resource callback, once its relative URI has been checked.

The second part is **the default/sentinel field codec of the document structs** (`struct.go`).
- Node transforms, with their `*OrDefault` getters and the omission of default or never-set transforms on encode.
- The optional scalar factors of materials, textures and PBR parameters.
- The RGBA/RGB colours.
- The camera's "type" discriminator.
- The extension registry and its per-key dispatch.
- The embedded-resource helpers of buffers and images.
- The first-occurrence byte-string surgery (`removeProperty`, `sanitizeJSON`) that the encoders use to drop default properties.

The model's parts, by file:
- **`Decoding.Decoder` class** (`decoding.dfy`). It holds the input and a cursor into it, the callback, the quotas, and the log of URIs handed to the callback and of streams closed. `Decoding.Document` holds the buffers in an `array` that decoding fills in place.
- **Specification functions.** Each method is proved against one of these functions (`DecodeBufferSpec`, `ResolveFrom`, `BinaryBufferSpec`, `DecodeDocumentSpec`, `DecodeSpec`), and the lemmas state what the source promises about them.
- **JSON objects** are maps from the keys present to their values. An encoder is modelled by the object it produces, so the omission rules become statements about which keys are emitted.
- **Floating-point components** are `real` values, compared only for equality.
- **Base64** is written out in `base64.dfy`, and its round trip is proved.
- **Constants.** The GLB constants and the data-URI prefixes are defined in a source file that is not part of this model. The values used here are magic `0x46546C67`, JSON chunk `0x4E4F534A`, BIN chunk `0x004E4942`, header size 20, and the prefixes `data:application/octet-stream;base64`, `data:image/png;base64` and `data:image/jpeg;base64`, none of which includes the comma that follows it.

An embedded buffer whose base64 payload decodes to zero bytes is **not** an error: `marshalData` returns no bytes and no error (struct.go:128-129). `Resources.MarshalData` and `Decoding.DecodeBufferSpec` model it that way.

## Model

| member | source | states |
|---|---|---|
| Base.ReplaceFirst | struct.go:718-719 | `bytes.Replace(s, p, q, 1)`: the input is unchanged when `p` does not occur in it; otherwise the length changes by exactly `|q| - |p|` |
| Base.ReplaceFirstLeftmost | struct.go:718-719 | only the leftmost occurrence of the pattern is replaced; everything before and after it is kept in order |
| Glb.U32WriteRead | decoder.go:125 | a u32 written as four little-endian bytes reads back as itself |
| Glb.U32ReadWrite | decoder.go:125 | four bytes read as a little-endian u32 and written back are the same bytes |
| Glb.ChunkHeaderRoundTrip | decoder.go:143-149 | the 8-byte chunk header (length, then type) written anywhere in a stream reads back as the same chunk header |
| Glb.HeaderRoundTrip | decoder.go:118-125 | the 20-byte GLB header (magic, version, length, JSON chunk length and type) written anywhere in a stream reads back as the same five words |
| Glb.ValidateHeader | decoder.go:133-141 | a GLB header is accepted exactly when its JSON chunk has the JSON type and `20 + jsonLength <= length <= MaxMemoryAllocation`; within the quota, a rejection is the invalid-JSON-header error |
| Glb.ValidateAgreesWithoutWrap | decoder.go:137 | the check as written and the intended check agree whenever `jsonLength + 20` fits in a uint32 |
| Glb.WrappedJsonLengthAccepted | decoder.go:137 | a 100-byte container that declares a JSON chunk 0xFFFFFFF0 bytes long passes the check as written, and the intended check refuses it |
| Glb.ReadHeader | decoder.go:118-131 | the input is plain JSON exactly when fewer than 20 bytes remain or the first little-endian u32 is not the magic; otherwise the result is the header read at the cursor together with the verdict of `validateGLBHeader` as written, with its wrapping uint32 sum |
| Base64.Encode | struct.go:118 | the encoding of n bytes is `4 * ceil(n / 3)` characters long |
| Base64.Decode | struct.go:127 | decoding succeeds only on a whole number of 4-character quanta, each of which yields at most 3 bytes |
| Base64.RoundTrip | struct.go:118-127 | decoding the standard encoding of any byte sequence gives back exactly those bytes |
| Resources.IsEmbeddedResource | struct.go:112-114 | a buffer is embedded exactly when its URI is the octet-stream data-URI prefix followed by anything |
| Resources.EmbeddedResource | struct.go:117-119 | after `EmbeddedResource` the buffer is embedded, and its byte length and data are unchanged |
| Resources.PayloadAsWritten | struct.go:126-127 | the slice `URI[len(prefix)+1:]` is defined exactly when the URI is longer than the prefix |
| Resources.BarePrefixPanics | struct.go:126-127 | each of the three prefixes, taken as a whole URI, is recognised as embedded, yet slicing past its comma is out of range |
| Resources.Payload | struct.go:126-127 | the payload is what follows the prefix and its separator, and it agrees with the slice as written whenever that slice is defined; a bare prefix is a malformed-data-URI error; a separator outside ASCII, of which Go cuts only the first UTF-8 byte, is the base64 error |
| Resources.MarshalData | struct.go:122-132 | a non-embedded buffer yields no bytes and no error; for an embedded one, an error is returned exactly when the payload after the prefix is missing or is not base64, and it is that error, with no bytes; otherwise the bytes are exactly the base64 decoding of the payload |
| Resources.EmbeddedRoundTrip | struct.go:112-132 | after `EmbeddedResource`, `IsEmbeddedResource` holds and `marshalData` returns the original data with no error |
| Resources.DecodesAbc | struct.go:122-132 | the embedded URI with payload "QUJD" decodes to the bytes 65, 66, 67 |
| Resources.NonAsciiSeparatorRejected | struct.go:122-132 | the URI with "é" in place of the comma fails with the base64 error and no bytes |
| Resources.ImageIsEmbeddedResource | struct.go:620-622 | an image is embedded exactly when its URI is the PNG or the JPEG data-URI prefix followed by anything, and no URI has both prefixes |
| Resources.ImageMarshalData | struct.go:620-635 | an image URI with neither image prefix yields empty bytes and no error; a JPEG-prefixed URI is decoded after the JPEG prefix; otherwise a PNG-prefixed URI is decoded after the PNG prefix |
| Resources.ImageRoundTrip | struct.go:620-635 | an image URI made of either prefix, a comma and the base64 of some bytes is embedded, and it decodes to exactly those bytes |
| Decoding.ValidateBuffer | decoder.go:189-198 | a buffer passes exactly when `0 < byteLength <= MaxMemoryAllocation`; a zero length gives the byteLength error and otherwise the quota error |
| Decoding.ValidateBufferUri | decoder.go:200-205 | a refused URI gets the invalid-URI error naming that URI |
| Decoding.SafeUri | decoder.go:200-205 | a URI passes `validateBufferURI` exactly when it is non-empty, does not start with '/' or '\\', and contains ".." nowhere |
| Decoding.ParentTraversalRefused | decoder.go:200-205 | the URI "../secret.bin" is refused with the invalid-URI error |
| Decoding.ReadOnce | decoder.go:165-166 | the model's single `Read` into an n-byte slice, taken to deliver everything it can: it copies `min(n, available)` bytes, leaves the rest zero, and reports EOF only when nothing was available for a non-empty slice |
| Decoding.ReadSome | decoder.go:185 | a `Read` that delivers k of the available bytes: the first k bytes of the slice are the stream's, the rest stay zero, and there is no error unless the stream was empty |
| Decoding.ReadOnceIsWholeRead | decoder.go:185 | the model's single read is the `Read` that delivers `min(n, available)` bytes |
| Decoding.ShortReadUnnoticed | decoder.go:185 | a `Read` of three bytes that delivers only one leaves [1, 0, 0] with no error, which differs from the payload [1, 2, 3] |
| Decoding.ReadFull | decoder.go:185 | `io.ReadFull`: no error exactly when the stream holds n bytes, and then the slice is exactly those bytes; otherwise EOF when it was empty and an unexpected EOF when it held part of them |
| Decoding.WholeReadIsReadFull | decoder.go:185 | when the stream holds n bytes, the model's whole read equals `io.ReadFull`, any `Read` returns no error, and a `Read` equals `io.ReadFull` exactly when it delivers all n bytes |
| Decoding.DecodeBufferSpec | decoder.go:151-171 | validation runs first, and a failure leaves everything untouched; an empty URI is an error; an embedded URI is decoded without calling the callback; a URI that fails `validateBufferURI` is the error and the callback is not called; otherwise the callback is asked exactly once, its error is returned with the buffer unchanged, a (nil, nil) reply leaves the buffer as it was with no error, and a stream is read into exactly byteLength bytes, closed, and the read's error returned |
| Decoding.ResolveFrom | decoder.go:85-89 | the buffer loop keeps the number of buffers and never touches the buffers before its start index |
| Decoding.ResolveUpdatesPrefix | decoder.go:85-89 | each buffer that is reached (every earlier one succeeded) holds its `decodeBuffer` result, and every buffer after the first failure is untouched |
| Decoding.ResolveErrorIsFirstFailure | decoder.go:85-89 | the loop fails exactly when some buffer fails, and its error is that of the first failing buffer |
| Decoding.ResolveStopsAtFirstError | decoder.go:85-89 | the buffers are processed in index order and the loop stops at the first error: earlier buffers are updated, later ones untouched, and the error returned is the first failure's |
| Decoding.CallbackSeesOnlySafeUris | decoder.go:160-168 | every URI handed to the callback passed `validateBufferURI` and belongs to a non-embedded buffer at or after the start index that the loop reached, every buffer before it having succeeded; every stream closed was first requested |
| Decoding.BinaryBufferSpec | decoder.go:173-187 | validation runs first; the next chunk must be a BIN chunk at least byteLength long, else the result is the invalid-BIN-header error with the buffer untouched; on success the data has exactly byteLength bytes |
| Decoding.BinaryChunkFillsBuffer | decoder.go:177-186 | when the BIN chunk holds byteLength bytes and the single `Read` delivers all of them, buffer 0 receives exactly those bytes and the cursor moves past them |
| Decoding.AfterParse | decoder.go:110-115 | a parse error is returned with no document; a parsed document is kept, and it is an error exactly when it has more buffers than MaxBufferCount |
| Decoding.DecodeDocumentSpec | decoder.go:93-116 | without a GLB header, JSON is parsed from the cursor to the end; a header that fails validation is the error, with no document and the 20 header bytes consumed; after a valid header the parser sees exactly the JSON chunk, cut short at the end of the input, and the cursor is left after it; the buffer-count quota applies to the parsed document; no error means a document |
| Decoding.DecodeSpec | decoder.go:69-91 | whenever `Decode` yields a document, it is the parsed document with the same number of buffers and the same other properties |
| Decoding.QuotaFailsBeforeAnyBuffer | decoder.go:110-113 | a document with more buffers than MaxBufferCount fails with the quota error, with every buffer as parsed and no resource requested |
| Decoding.PlainJsonReadFromCursor | decoder.go:102-110 | without a GLB header, JSON is read from the unconsumed cursor; a parse error is returned; otherwise every buffer is resolved through `decodeBuffer` from index 0 |
| Decoding.GlbBinaryChunkLoadsBufferZero | decoder.go:78-84 | for a valid GLB file with a sufficient BIN chunk, when the single `Read` delivers every byte asked for, buffer 0 receives the first byteLength bytes of the BIN payload, whatever its URI |
| Decoding.UnsafeFirstUriStopsDecode | decoder.go:85-89 | in a plain JSON document, a first buffer whose URI fails `validateBufferURI` makes `Decode` fail with that error, with no URI requested and every buffer as parsed |
| Decoding.HeaderErrorStopsDecode | decoder.go:70-73 | a GLB header that fails validation is `Decode`'s error, with no document and nothing requested |
| Decoding.BinaryBufferFailureStopsDecode | decoder.go:79-83 | in a GLB file, a failure on buffer 0 is `Decode`'s error, and no other buffer is touched or requested |
| Decoding.BinaryModeResolvesFromOne | decoder.go:78-89 | in a GLB file, after buffer 0 is loaded from the BIN chunk, the loop runs from index 1: `Decode`'s error, requests and buffers are that loop's, and every URI handed to the callback belongs to a buffer other than buffer 0 |
| Decoding.Decoder.constructor | decoder.go:51-59 | a new decoder is at the start of the input, with quotas of 8 buffers and 32·1024·1024 bytes and nothing requested yet |
| Decoding.Decoder.SetQuotas | decoder.go:62-65 | both quotas are replaced, and the same decoder is returned |
| Decoding.Decoder.ReadGlbHeader | decoder.go:118-131 | nothing is consumed when the input is not GLB; otherwise exactly 20 bytes are consumed and the header is returned with the verdict of the check as written |
| Decoding.Decoder.ReadChunkHeader | decoder.go:143-149 | 8 bytes are consumed and decoded, or the result is EOF at the end of the input and an unexpected EOF on a partial header |
| Decoding.Decoder.Read | decoder.go:184-185 | one read returns `ReadOnce` on the unread input, that is the `Read` that delivers every byte it can, and advances the cursor by the count read |
| Decoding.Decoder.DecodeDocument | decoder.go:93-116 | the cursor, the error and the binary flag follow `DecodeDocumentSpec`; the document is replaced by the parsed one exactly when the parse succeeds |
| Decoding.Decoder.DecodeBuffer | decoder.go:151-171 | only buffer i changes, to its `DecodeBufferSpec` value; the requested and closed logs grow by that call's entries |
| Decoding.Decoder.DecodeBinaryBuffer | decoder.go:173-187 | only buffer i changes, and it, the error and the cursor follow `BinaryBufferSpec` |
| Decoding.Decoder.DecodeBuffers | decoder.go:85-90 | the buffer array, the error and the logs become those of `ResolveFrom` |
| Decoding.Decoder.Decode | decoder.go:69-91 | the error, the cursor, the logs and the document's buffers become those of `DecodeSpec` |
| Fields.FitArray | struct.go:200-212 | decoding a JSON array into a fixed-size float array: a number replaces the seeded slot, a null keeps it, and slots past the array's end become zero; any other element is a type error |
| Fields.FitNumbers | struct.go:200-212 | an array of exactly N numbers decodes to those numbers, whatever the seed |
| Fields.DecodeArrayField | struct.go:200-212 | an absent or null key keeps the seed; an array is fitted; any other value is a type error |
| Fields.DecodeNumberField | struct.go:351-359 | an absent key keeps the seeded pointer; null makes it nil; a number sets it; anything else is a type error |
| Nodes.MatrixOrDefault | struct.go:171-176 | the getter never returns the all-zero matrix; it returns the identity exactly when the field is all zeros or the identity, and the field otherwise |
| Nodes.RotationOrDefault | struct.go:179-184 | the same for rotation, with default (0,0,0,1) |
| Nodes.ScaleOrDefault | struct.go:187-192 | the same for scale, with default (1,1,1) |
| Nodes.TranslationOrDefault | struct.go:195-197 | translation is returned as it is |
| Nodes.OrDefaults | struct.go:171-197 | the node as its getters report it has no all-zero matrix, rotation or scale |
| Nodes.OrDefaultsIdempotent | struct.go:171-197 | applying the getters' canonicalisation twice is the same as once |
| Nodes.UnsetReportsDefaults | struct.go:171-197 | a zero-valued node reports the identity matrix, rotation (0,0,0,1), scale (1,1,1) and zero translation |
| Nodes.DecodeTransform | struct.go:200-212 | each absent transform key keeps its seed (identity, (0,0,0,1), (1,1,1), zeros) and each present one is replaced by what its array decoding gives; decoding fails exactly when some present key has the wrong type |
| Nodes.DecodeNode | struct.go:200-212 | null decodes to the seeded node, an object decodes key by key, and anything else is a type error |
| Nodes.EncodeNode | struct.go:215-243 | matrix, rotation and scale are omitted exactly when equal to the default or all zero, translation exactly when all zero; an emitted field holds the field's numbers |
| Nodes.DecodeEncodeCanonicalises | struct.go:200-243 | decoding a node's encoding yields the node as its `*OrDefault` getters report it (all-zero fields become defaults) |
| Nodes.EncodeIgnoresSentinels | struct.go:215-243 | a node and its canonical form encode identically |
| Nodes.Node.constructor | struct.go:155-168 | a new node holds all-zero transforms |
| Nodes.Node.UnmarshalJson | struct.go:200-212 | on success the node becomes the decoded, seeded value; on error it is unchanged |
| Materials.DecodeRgba | struct.go:475-482 | null keeps (1,1,1,1); four numbers give that colour; a wrong type is an error |
| Materials.EncodeRgba | struct.go:485-487 | a colour encodes as a four-element array |
| Materials.RgbaRoundTrip | struct.go:475-487 | decoding an encoded RGBA colour gives it back |
| Materials.DecodeRgb | struct.go:501-508 | null keeps (1,1,1); a wrong type is an error |
| Materials.EncodeRgb | struct.go:511-513 | a colour encodes as a three-element array |
| Materials.RgbRoundTrip | struct.go:501-513 | decoding an encoded RGB colour gives it back |
| Materials.PutFactor | struct.go:566-571 | a scalar factor is emitted exactly when it is set and differs from its default, and nothing else changes |
| Materials.FactorRoundTrip | struct.go:551-571 | decoding an emitted-or-omitted factor against its seeded default yields the factor, with a default-valued or nil factor read back as the default |
| Materials.NormalScaleOrDefault | struct.go:387-392 | a nil scale reads as 1, a set one as itself |
| Materials.DecodeNormalTexture | struct.go:395-403 | an absent scale is seeded to 1, null makes it nil, and a wrong type is an error |
| Materials.EncodeNormalTexture | struct.go:406-418 | scale is emitted exactly when it is set and not 1 |
| Materials.NormalTextureRoundTrip | struct.go:395-418 | decoding the encoding yields the canonical texture, which reports the same scale |
| Materials.StrengthOrDefault | struct.go:430-435 | a nil strength reads as 1, a set one as itself |
| Materials.DecodeOcclusionTexture | struct.go:438-446 | an absent strength is seeded to 1, null makes it nil, and a wrong type is an error |
| Materials.EncodeOcclusionTexture | struct.go:449-461 | strength is emitted exactly when it is set and not 1 |
| Materials.OcclusionTextureRoundTrip | struct.go:438-461 | decoding the encoding yields the canonical texture, which reports the same strength |
| Materials.MetallicFactorOrDefault | struct.go:527-532 | a nil metallic factor reads as 1 |
| Materials.RoughnessFactorOrDefault | struct.go:535-540 | a nil roughness factor reads as 1 |
| Materials.BaseColorFactorOrDefault | struct.go:543-548 | a nil base colour reads as (1,1,1,1) |
| Materials.DecodeBaseColor | struct.go:551-559 | an absent base colour is seeded to (1,1,1,1), null makes it nil, and otherwise the RGBA decoding applies |
| Materials.DecodePbr | struct.go:551-559 | absent metallic, roughness and base colour are seeded to their defaults, and present ones are replaced by their own decoding; an object decodes exactly when all three decode; null gives the seeded value; a non-object is a type error |
| Materials.EncodePbr | struct.go:562-578 | each of metallic, roughness and base colour is emitted exactly when it is set and differs from its default |
| Materials.PbrRoundTrip | struct.go:551-578 | decoding the encoding yields the canonical PBR value, whose three getters report the same values |
| Materials.AlphaCutoffOrDefault | struct.go:343-348 | a nil alpha cutoff reads as 0.5 |
| Materials.DecodeMaterialObject | struct.go:351-359 | an absent alpha cutoff is seeded to 0.5 and an absent emissive factor is zero; every property, present or not, is what its own decoder gives (a present PBR object decodes by the PBR rules); the object decodes exactly when all five properties do |
| Materials.DecodeMaterial | struct.go:351-359 | null gives the seeded material, an object decodes key by key, and anything else is a type error |
| Materials.EncodeMaterial | struct.go:362-375 | alphaCutoff is omitted exactly when it is nil or 0.5, emissiveFactor exactly when it is all zero, and the nested objects exactly when nil |
| Materials.MaterialRoundTrip | struct.go:351-375 | decoding a material's encoding yields its canonical form, which reports the same alpha cutoff |
| Materials.Material.constructor | struct.go:328-340 | a new material has every pointer nil and a zero emissive factor |
| Materials.Material.UnmarshalJson | struct.go:351-359 | on success the material becomes the decoded, seeded value; on error it is unchanged |
| Cameras.EncodeOrthographic | struct.go:288-295 | all four orthographic properties are always written, each holding its field's number |
| Cameras.EncodePerspective | struct.go:298-305 | yfov and znear are always written, aspectRatio and zfar exactly when set, each holding its field's number, and no other key is written |
| Cameras.EncodeCamera | struct.go:265-285 | a camera with neither projection is an error; otherwise "type" is "perspective" whenever perspective is set, even with orthographic also set, and "orthographic" otherwise; each projection is emitted exactly when set |
| Cameras.TypeNamesEmittedProjection | struct.go:265-285 | the discriminator names a projection object that is present in the output and holds that projection's encoding |
| Extensions.Registry.constructor | struct.go:682 | the registry starts empty |
| Extensions.Registry.RegisterExtension | struct.go:687-689 | the factory for the key is set, replacing any earlier one, and every other key keeps its factory |
| Extensions.Dispatch | struct.go:700-710 | the stored value is typed exactly when a factory is registered for the key and decodes the bytes; otherwise it is the raw bytes, unchanged |
| Extensions.Merge | struct.go:692-715 | every payload key gets its dispatched value, and every existing entry under other keys is kept |
| Extensions.MergeStep | struct.go:699-711 | one more loop iteration updates exactly its own key |
| Extensions.MergeNeverDropsKeys | struct.go:699-714 | a per-key decoding failure is never an error: every payload key ends up either raw or typed by its factory |
| Extensions.Extensions.constructor | struct.go:693-695 | a new extensions map is empty |
| Extensions.Extensions.UnmarshalJson | struct.go:692-715 | an envelope error is returned and the map is left alone; otherwise no error is returned and the map becomes the merge of its old entries with the dispatched payload |
| JsonSurgery.RemoveProperty | struct.go:717-720 | as written, it never lengthens the input and removes at most the pattern plus one character; with an occurrence it removes at least the pattern |
| JsonSurgery.SanitizeJson | struct.go:722-725 | it never lengthens the input and removes at most two characters; with neither "{," nor ",}" present the input is unchanged |
| JsonSurgery.RemovePropertyIntended | struct.go:717-720 | the intended removal leaves the input unchanged when the pattern is absent, and otherwise removes the pattern plus at most one character |
| JsonSurgery.IntendedKeepsTheRest | struct.go:717-720 | the intended removal deletes one span, made of the first occurrence and at most one adjacent comma, and keeps every other character in order |
| JsonSurgery.AsWrittenAgreesBetweenSeparators | struct.go:717-720 | when the pattern sits between two separator commas and no ",," comes before it, the code as written and the intended removal both produce `pre,post` |
| JsonSurgery.CommaPairInStringCorrupted | struct.go:717-725 | on `{"name":",,","scale":[1,1,1]}`, the code as written followed by `sanitizeJSON` gives `{"name":","}`, which differs from the intended result |
| JsonSurgery.IntendedRemoval | struct.go:717-720 | the intended removal takes the scale and the comma before it, and leaves the name alone |
| JsonSurgery.CommaPairInStringKept | struct.go:717-725 | the intended removal followed by `sanitizeJSON` gives `{"name":",,"}` |

## Left out

- `Open` (decoder.go:29-41): opening files and joining paths is operating-system I/O. The resource callback is a parameter of the decoder instead.
- `bufio.Reader` and `json.Decoder`. The input is a byte sequence with a cursor, and the JSON parser is a parameter applied to exactly the bytes Go hands it (the JSON chunk in a GLB file, everything from the cursor otherwise).
  - The cursor is placed after the JSON: at the end of the input for plain JSON, or at `20 + jsonLength` in a GLB file.
  - Bytes `bufio` buffers ahead are not modelled.
- Decoding.ReadOnce: the single `Read` of decoder.go:166 and decoder.go:185 is modelled as delivering every byte available up to the size asked for. A `Read` that delivers fewer is stated by `Decoding.ReadSome` but not used by the decoder, so Data's contents beyond what such a read would deliver are a consequence of this choice (see Findings). A stream's `Read` never fails with an error other than EOF in the model; an I/O error from a resource stream (decoder.go:166) is not represented.
- Decoding.Decoder.DecodeDocument: a failed JSON parse leaves the document unchanged. Go's `json.Decoder` may have filled part of it first, which the model does not capture.
- The JSON text `json.Marshal` produces is not modelled. Encoders produce the object of emitted keys, and `removeProperty`/`sanitizeJSON` are modelled on their own, as functions on text.
- JSON text is modelled as characters rather than bytes. Every pattern involved is ASCII, so positions agree.
- Go's case-insensitive matching of JSON keys to struct fields is not modelled; keys match exactly.
- Properties of Node and Material other than the transforms, factors, textures, colours and emissive factor (name, children, mesh, alphaMode, doubleSided and so on) follow plain `json` rules with no default logic, so they are left out.
- The index and texCoord fields of textures and the textures of PBR parameters are left out for the same reason.
- Camera name, extensions and extras are left out. Only the projections and the discriminator carry logic.
- Base64.Decode: the line breaks that Go's decoder skips are not modelled; such input is rejected here.
- Decoding.BinaryChunkFillsBuffer: Go's single `d.r.Read` at decoder.go:185 goes to a `bufio.Reader`, which hands over only the bytes it already buffered. Past that window Go's Data stays zero with no error, so the claim that buffer 0 holds the BIN bytes holds only under the model's whole-read `Read`.
- Decoding.GlbBinaryChunkLoadsBufferZero: the same whole-read assumption applies. In a real file the BIN payload reaches buffer 0 only up to the end of the 4096-byte window `bufio` filled.
- Decoding.Decoder.Read: the read at the cursor always delivers every byte it can, which a `bufio.Reader` does not promise.
- Resources.MarshalData: a URI that is exactly the octet-stream prefix makes Go's slice at struct.go:126-127 panic; the model returns a malformed-data-URI error instead (see Findings).
- Resources.ImageMarshalData: a URI that is exactly an image prefix makes Go's slice at struct.go:633-634 panic; the model returns a malformed-data-URI error instead (see Findings).
- Resources.ImageMarshalData: on corrupt base64, Go returns the bytes decoded before the error together with the error. The model returns the error alone.
- Resources.EmbeddedResource: this rewrites `b.URI` in place in Go; it is modelled as a function returning the updated buffer, because the buffer is a plain value everywhere else in the model.
- The `UnmarshalJSON`/`MarshalJSON` methods of NormalTexture, OcclusionTexture, PBRMetallicRoughness, RGBA and RGB are modelled as functions on values: decode returns the new value, which the Go method stores in its receiver. `Nodes.Node` and `Materials.Material` show the in-place form.
- Floating point: NaN, negative zero and the textual formatting of numbers are not modelled. Components are reals compared for equality.
- The `validate:` struct tags belong to an external validator.
- Locking around the package-level extension registry and concurrency in general are not modelled. The registry is a class holding a map.
- Plain data structs without logic (Accessor, Sparse, BufferView, Scene, Skin, Mesh, Primitive, Texture, Sampler, Animation, Channel) and the `Index`/`Float64` helpers are left out.

## Findings

| source | as written | input that shows it | evidently intended | confidence | as-written member | corrected member |
|---|---|---|---|---|---|---|
| decoder.go:137 | `jsonLength + 20` is computed in uint32 and wraps past 2^32 - 1, so a huge JSON chunk length passes the bound check | a 100-byte GLB header that declares JSON chunk length 0xFFFFFFF0 (the sum wraps to 4) | the JSON chunk and the header must fit in the declared total length | not executed | Glb.WrappedJsonLengthAccepted | Glb.ValidateHeader |
| struct.go:126-127 | `URI[len(prefix)+1:]` is taken after only checking that the URI starts with the prefix; the same slice appears at struct.go:633-634 for images | the URI `data:application/octet-stream;base64` with no comma (or either image prefix alone) slices out of range and panics | a URI that is only the prefix is a malformed data URI, reported as an error | not executed | Resources.BarePrefixPanics | Resources.Payload |
| struct.go:717-720 | after deleting the pattern, the first ",," anywhere in the output collapses to ",", even inside a string value before the deleted property | a Node named `,,` with default scale, shown on the fragment `{"name":",,","scale":[1,1,1]}` of its output, which becomes `{"name":","}` (the full output also carries matrix, rotation and translation, and the four removals and `sanitizeJSON` end in the same `{"name":","}`) | delete the property together with one adjacent separator comma and touch nothing else, giving `{"name":",,"}`; the first occurrence of the pattern is assumed to be the property itself, which fails when an earlier `extensions` or `extras` value contains the same text, and that case is not corrected | not executed | JsonSurgery.CommaPairInStringCorrupted | JsonSurgery.RemovePropertyIntended |
| decoder.go:185 | buffer 0 is filled by a single `Read` on a `bufio.Reader`, which may deliver fewer bytes than asked for, with no error; the same single `Read` appears at decoder.go:166 for resource streams | a GLB file with a 1000-byte JSON chunk and a 13000-byte BIN payload: after the first 4096 bytes are buffered, the `Read` delivers 3068 payload bytes and the other 9932 stay zero, with no error; `Decoding.ShortReadUnnoticed` shows the same on a three-byte payload | read until byteLength bytes are in, or report the short stream, as `io.ReadFull` does | not executed | Decoding.ShortReadUnnoticed | Decoding.ReadFull |

The decoder reads with `Decoding.ReadOnce`. Whenever the bytes are there, it equals `Decoding.ReadFull` (`Decoding.WholeReadIsReadFull`), so buffer 0 gets the whole BIN payload. On a stream that ends early it reports no error, as Go does. The shorter reads Go allows are stated by `Decoding.ReadSome` but are not part of the decoder.

The decoder keeps the GLB header check as written: `Glb.ReadHeader`, and so `Decoding.DecodeSpec` and `Decoding.Decoder.Decode`, use `Glb.ValidateHeaderAsWritten`. `Glb.ValidateAgreesWithoutWrap` shows that it gives the same verdict as the corrected `Glb.ValidateHeader` whenever the uint32 sum does not wrap. A wrapped header that slips through hands the JSON parser up to jsonLength bytes, cut short at the end of the input, as `Decoding.DecodeDocumentSpec` states.
