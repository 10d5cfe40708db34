/** Materials and their optional scalar factors (struct.go: `Material`,
    `NormalTexture`, `OcclusionTexture`, `PBRMetallicRoughness`, `RGBA`,
    `RGB`). A factor is a pointer: nil means "the glTF 2.0 default". Decoding
    seeds the default before applying the JSON, and encoding omits a factor
    equal to its default. Encoding is modelled as the JSON object of the
    modelled properties it emits. */
module Materials {
  import opened Base
  import opened Fields

  const DefaultAlphaCutoff: real := 0.5
  const DefaultNormalScale: real := 1.0
  const DefaultOcclusionStrength: real := 1.0
  const DefaultMetallic: real := 1.0
  const DefaultRoughness: real := 1.0

  datatype Rgba = Rgba(r: real, g: real, b: real, a: real)
  datatype Rgb = Rgb(r: real, g: real, b: real)

  /** `NewRGBA`: opaque white. */
  const DefaultRgba: Rgba := Rgba(1.0, 1.0, 1.0, 1.0)
  /** `NewRGB`: white. */
  const DefaultRgb: Rgb := Rgb(1.0, 1.0, 1.0)

  /** `RGBA.UnmarshalJSON`: the value is decoded as a `[4]float64` seeded
      with ones (so null keeps white). */
  function DecodeRgba(key: string, v: Json): (r: Result<Rgba>)
    ensures v.Null? ==> r == Ok(DefaultRgba)
    ensures v.Array? && |v.items| == 4 && (forall i :: 0 <= i < 4 ==> v.items[i].Number?) ==>
              r == Ok(Rgba(v.items[0].n, v.items[1].n, v.items[2].n, v.items[3].n))
    ensures r.Err? <==> !v.Null? && (v.Array? ==> FitArray(key, [1.0, 1.0, 1.0, 1.0], v.items).Err?)
  {
    match v
    case Null => Ok(DefaultRgba)
    case Array(items) =>
      (match FitArray(key, [1.0, 1.0, 1.0, 1.0], items)
       case Ok(c) => Ok(Rgba(c[0], c[1], c[2], c[3]))
       case Err(e) => Err(e))
    case _ => Err(JsonType(key))
  }

  /** `RGBA.MarshalJSON`: the four components in order. */
  function EncodeRgba(c: Rgba): (v: Json)
    ensures v.Array? && |v.items| == 4
  {
    Array(Numbers([c.r, c.g, c.b, c.a]))
  }

  /** Every colour survives encoding and decoding. */
  lemma {:induction false} RgbaRoundTrip(key: string, c: Rgba)
    ensures DecodeRgba(key, EncodeRgba(c)) == Ok(c)
  {
    FitNumbers(key, [1.0, 1.0, 1.0, 1.0], [c.r, c.g, c.b, c.a]);
  }

  /** `RGB.UnmarshalJSON`: as for `RGBA`, with three components. */
  function DecodeRgb(key: string, v: Json): (r: Result<Rgb>)
    ensures v.Null? ==> r == Ok(DefaultRgb)
    ensures r.Err? <==> !v.Null? && (v.Array? ==> FitArray(key, [1.0, 1.0, 1.0], v.items).Err?)
  {
    match v
    case Null => Ok(DefaultRgb)
    case Array(items) =>
      (match FitArray(key, [1.0, 1.0, 1.0], items)
       case Ok(c) => Ok(Rgb(c[0], c[1], c[2]))
       case Err(e) => Err(e))
    case _ => Err(JsonType(key))
  }

  /** `RGB.MarshalJSON`. */
  function EncodeRgb(c: Rgb): (v: Json)
    ensures v.Array? && |v.items| == 3
  {
    Array(Numbers([c.r, c.g, c.b]))
  }

  lemma {:induction false} RgbRoundTrip(key: string, c: Rgb)
    ensures DecodeRgb(key, EncodeRgb(c)) == Ok(c)
  {
    FitNumbers(key, [1.0, 1.0, 1.0], [c.r, c.g, c.b]);
  }

  /** The value of an optional factor: the default when nil. */
  function OrDefault(f: Option<real>, default: real): (v: real)
    ensures f.None? ==> v == default
    ensures f.Some? ==> v == f.value
  {
    if f.None? then default else f.value
  }

  /** A factor is emitted exactly when it is set and differs from the
      default. */
  predicate EmitsFactor(f: Option<real>, default: real)
  {
    f.Some? && f.value != default
  }

  /** A factor after encoding and decoding: nil and the default both come
      back as the seeded default. */
  function CanonicalFactor(f: Option<real>, default: real): (g: Option<real>)
    ensures g.Some? && OrDefault(g, default) == OrDefault(f, default)
  {
    Some(OrDefault(f, default))
  }

  /** Encode one factor into `o` under `key`. */
  function PutFactor(o: JsonObject, key: string, f: Option<real>, default: real): (p: JsonObject)
    ensures key in p <==> key in o || EmitsFactor(f, default)
    ensures EmitsFactor(f, default) ==> p == o[key := Number(f.value)]
    ensures !EmitsFactor(f, default) ==> p == o
  {
    if EmitsFactor(f, default) then o[key := Number(f.value)] else o
  }

  /** An emitted-or-omitted factor decodes back to its canonical value. */
  lemma FactorRoundTrip(key: string, o: JsonObject, f: Option<real>, default: real)
    requires key in o <==> EmitsFactor(f, default)
    requires key in o ==> o[key] == Number(f.value)
    ensures DecodeNumberField(key, o, Some(default)) == Ok(CanonicalFactor(f, default))
  {
  }

  // ----- NormalTexture -------------------------------------------------------

  datatype NormalTexture = NormalTexture(scale: Option<real>)

  /** `NormalTexture.ScaleOrDefault`. */
  function NormalScaleOrDefault(n: NormalTexture): (s: real)
    ensures n.scale.None? ==> s == DefaultNormalScale
    ensures n.scale.Some? ==> s == n.scale.value
  {
    OrDefault(n.scale, DefaultNormalScale)
  }

  /** `NormalTexture.UnmarshalJSON`: scale seeded with 1. */
  function DecodeNormalTexture(v: Json): (r: Result<NormalTexture>)
    ensures v.Null? ==> r == Ok(NormalTexture(Some(DefaultNormalScale)))
    ensures v.Object? && "scale" !in v.fields ==> r == Ok(NormalTexture(Some(DefaultNormalScale)))
    ensures v.Object? && "scale" in v.fields && v.fields["scale"].Null? ==> r == Ok(NormalTexture(None))
    ensures r.Err? <==> !v.Null? && (v.Object? ==> DecodeNumberField("scale", v.fields, Some(DefaultNormalScale)).Err?)
  {
    match v
    case Null => Ok(NormalTexture(Some(DefaultNormalScale)))
    case Object(fields) =>
      (match DecodeNumberField("scale", fields, Some(DefaultNormalScale))
       case Ok(s) => Ok(NormalTexture(s))
       case Err(e) => Err(e))
    case _ => Err(JsonType("normalTexture"))
  }

  /** `NormalTexture.MarshalJSON`: scale omitted when nil or 1. */
  function EncodeNormalTexture(n: NormalTexture): (o: JsonObject)
    ensures "scale" in o <==> EmitsFactor(n.scale, DefaultNormalScale)
    ensures "scale" in o ==> o["scale"] == Number(n.scale.value)
  {
    PutFactor(map[], "scale", n.scale, DefaultNormalScale)
  }

  function CanonicalNormalTexture(n: NormalTexture): NormalTexture
  {
    NormalTexture(CanonicalFactor(n.scale, DefaultNormalScale))
  }

  /** Encoding then decoding keeps the scale the getter reports and makes it
      explicit. */
  lemma {:induction false} NormalTextureRoundTrip(n: NormalTexture)
    ensures DecodeNormalTexture(Object(EncodeNormalTexture(n))) == Ok(CanonicalNormalTexture(n))
    ensures NormalScaleOrDefault(CanonicalNormalTexture(n)) == NormalScaleOrDefault(n)
  {
    FactorRoundTrip("scale", EncodeNormalTexture(n), n.scale, DefaultNormalScale);
  }

  // ----- OcclusionTexture ----------------------------------------------------

  datatype OcclusionTexture = OcclusionTexture(strength: Option<real>)

  /** `OcclusionTexture.StrengthOrDefault`. */
  function StrengthOrDefault(o: OcclusionTexture): (s: real)
    ensures o.strength.None? ==> s == DefaultOcclusionStrength
    ensures o.strength.Some? ==> s == o.strength.value
  {
    OrDefault(o.strength, DefaultOcclusionStrength)
  }

  /** `OcclusionTexture.UnmarshalJSON`: strength seeded with 1. */
  function DecodeOcclusionTexture(v: Json): (r: Result<OcclusionTexture>)
    ensures v.Null? ==> r == Ok(OcclusionTexture(Some(DefaultOcclusionStrength)))
    ensures v.Object? && "strength" !in v.fields ==> r == Ok(OcclusionTexture(Some(DefaultOcclusionStrength)))
    ensures v.Object? && "strength" in v.fields && v.fields["strength"].Null? ==> r == Ok(OcclusionTexture(None))
    ensures r.Err? <==> !v.Null? && (v.Object? ==> DecodeNumberField("strength", v.fields, Some(DefaultOcclusionStrength)).Err?)
  {
    match v
    case Null => Ok(OcclusionTexture(Some(DefaultOcclusionStrength)))
    case Object(fields) =>
      (match DecodeNumberField("strength", fields, Some(DefaultOcclusionStrength))
       case Ok(s) => Ok(OcclusionTexture(s))
       case Err(e) => Err(e))
    case _ => Err(JsonType("occlusionTexture"))
  }

  /** `OcclusionTexture.MarshalJSON`: strength omitted when nil or 1. */
  function EncodeOcclusionTexture(o: OcclusionTexture): (j: JsonObject)
    ensures "strength" in j <==> EmitsFactor(o.strength, DefaultOcclusionStrength)
    ensures "strength" in j ==> j["strength"] == Number(o.strength.value)
  {
    PutFactor(map[], "strength", o.strength, DefaultOcclusionStrength)
  }

  function CanonicalOcclusionTexture(o: OcclusionTexture): OcclusionTexture
  {
    OcclusionTexture(CanonicalFactor(o.strength, DefaultOcclusionStrength))
  }

  lemma {:induction false} OcclusionTextureRoundTrip(o: OcclusionTexture)
    ensures DecodeOcclusionTexture(Object(EncodeOcclusionTexture(o))) == Ok(CanonicalOcclusionTexture(o))
    ensures StrengthOrDefault(CanonicalOcclusionTexture(o)) == StrengthOrDefault(o)
  {
    FactorRoundTrip("strength", EncodeOcclusionTexture(o), o.strength, DefaultOcclusionStrength);
  }

  // ----- PBRMetallicRoughness ------------------------------------------------

  datatype Pbr = Pbr(baseColor: Option<Rgba>, metallic: Option<real>, roughness: Option<real>)

  /** What `PBRMetallicRoughness.UnmarshalJSON` starts from. */
  const SeededPbr: Pbr := Pbr(Some(DefaultRgba), Some(DefaultMetallic), Some(DefaultRoughness))

  function MetallicFactorOrDefault(p: Pbr): (m: real)
    ensures p.metallic.None? ==> m == DefaultMetallic
    ensures p.metallic.Some? ==> m == p.metallic.value
  {
    OrDefault(p.metallic, DefaultMetallic)
  }

  function RoughnessFactorOrDefault(p: Pbr): (r: real)
    ensures p.roughness.None? ==> r == DefaultRoughness
    ensures p.roughness.Some? ==> r == p.roughness.value
  {
    OrDefault(p.roughness, DefaultRoughness)
  }

  function BaseColorFactorOrDefault(p: Pbr): (c: Rgba)
    ensures p.baseColor.None? ==> c == DefaultRgba
    ensures p.baseColor.Some? ==> c == p.baseColor.value
  {
    if p.baseColor.None? then DefaultRgba else p.baseColor.value
  }

  /** The `baseColorFactor` property: absent keeps the seeded white, null
      sets it to nil, anything else goes through `RGBA.UnmarshalJSON`. */
  function DecodeBaseColor(obj: JsonObject): (r: Result<Option<Rgba>>)
    ensures "baseColorFactor" !in obj ==> r == Ok(Some(DefaultRgba))
    ensures "baseColorFactor" in obj && obj["baseColorFactor"].Null? ==> r == Ok(None)
    ensures "baseColorFactor" in obj && !obj["baseColorFactor"].Null? ==>
              r == match DecodeRgba("baseColorFactor", obj["baseColorFactor"])
                   case Ok(c) => Ok(Some(c)) case Err(e) => Err(e)
  {
    if "baseColorFactor" !in obj then Ok(Some(DefaultRgba))
    else if obj["baseColorFactor"].Null? then Ok(None)
    else
      match DecodeRgba("baseColorFactor", obj["baseColorFactor"])
      case Ok(c) => Ok(Some(c))
      case Err(e) => Err(e)
  }

  /** `PBRMetallicRoughness.UnmarshalJSON`: every factor seeded with its
      default. */
  function DecodePbr(v: Json): (r: Result<Pbr>)
    ensures v.Null? ==> r == Ok(SeededPbr)
    ensures v.Object? && r.Ok? && "metallicFactor" !in v.fields ==> r.value.metallic == Some(DefaultMetallic)
    ensures v.Object? && r.Ok? && "roughnessFactor" !in v.fields ==> r.value.roughness == Some(DefaultRoughness)
    ensures v.Object? && r.Ok? && "baseColorFactor" !in v.fields ==> r.value.baseColor == Some(DefaultRgba)
    ensures !v.Null? && !v.Object? ==> r == Err(JsonType("pbrMetallicRoughness"))
    // an object decodes when each of its three factors does, and each present key replaces its seed
    ensures v.Object? ==>
              (r.Ok? <==>
                 && DecodeBaseColor(v.fields).Ok?
                 && DecodeNumberField("metallicFactor", v.fields, Some(DefaultMetallic)).Ok?
                 && DecodeNumberField("roughnessFactor", v.fields, Some(DefaultRoughness)).Ok?)
    ensures v.Object? && r.Ok? ==> r.value.baseColor == DecodeBaseColor(v.fields).value
    ensures v.Object? && r.Ok? ==> r.value.metallic == DecodeNumberField("metallicFactor", v.fields, Some(DefaultMetallic)).value
    ensures v.Object? && r.Ok? ==> r.value.roughness == DecodeNumberField("roughnessFactor", v.fields, Some(DefaultRoughness)).value
  {
    match v
    case Null => Ok(SeededPbr)
    case Object(fields) =>
      (match DecodeBaseColor(fields)
       case Err(e) => Err(e)
       case Ok(c) =>
         match DecodeNumberField("metallicFactor", fields, Some(DefaultMetallic))
         case Err(e) => Err(e)
         case Ok(m) =>
           match DecodeNumberField("roughnessFactor", fields, Some(DefaultRoughness))
           case Err(e) => Err(e)
           case Ok(rf) => Ok(Pbr(c, m, rf)))
    case _ => Err(JsonType("pbrMetallicRoughness"))
  }

  /** `PBRMetallicRoughness.MarshalJSON`: each factor omitted when nil or
      equal to its default. */
  function EncodePbr(p: Pbr): (o: JsonObject)
    ensures "baseColorFactor" in o <==> p.baseColor.Some? && p.baseColor.value != DefaultRgba
    ensures "baseColorFactor" in o ==> o["baseColorFactor"] == EncodeRgba(p.baseColor.value)
    ensures "metallicFactor" in o <==> EmitsFactor(p.metallic, DefaultMetallic)
    ensures "roughnessFactor" in o <==> EmitsFactor(p.roughness, DefaultRoughness)
  {
    var o := if p.baseColor.Some? && p.baseColor.value != DefaultRgba
             then map["baseColorFactor" := EncodeRgba(p.baseColor.value)] else map[];
    var o := PutFactor(o, "metallicFactor", p.metallic, DefaultMetallic);
    PutFactor(o, "roughnessFactor", p.roughness, DefaultRoughness)
  }

  function CanonicalPbr(p: Pbr): Pbr
  {
    Pbr(Some(BaseColorFactorOrDefault(p)), CanonicalFactor(p.metallic, DefaultMetallic),
        CanonicalFactor(p.roughness, DefaultRoughness))
  }

  /** Encoding then decoding keeps every value the getters report. */
  lemma {:induction false} PbrRoundTrip(p: Pbr)
    ensures DecodePbr(Object(EncodePbr(p))) == Ok(CanonicalPbr(p))
    ensures var c := CanonicalPbr(p);
      && BaseColorFactorOrDefault(c) == BaseColorFactorOrDefault(p)
      && MetallicFactorOrDefault(c) == MetallicFactorOrDefault(p)
      && RoughnessFactorOrDefault(c) == RoughnessFactorOrDefault(p)
  {
    var o := EncodePbr(p);
    if "baseColorFactor" in o {
      RgbaRoundTrip("baseColorFactor", p.baseColor.value);
    }
    FactorRoundTrip("metallicFactor", o, p.metallic, DefaultMetallic);
    FactorRoundTrip("roughnessFactor", o, p.roughness, DefaultRoughness);
  }

  // ----- Material ------------------------------------------------------------

  type Vec3 = s: seq<real> | |s| == 3 witness [0.0, 0.0, 0.0]

  /** The defaulted properties of a material. */
  datatype MaterialFields = MaterialFields(
    pbr: Option<Pbr>,
    normalTexture: Option<NormalTexture>,
    occlusionTexture: Option<OcclusionTexture>,
    emissiveFactor: Vec3,
    alphaCutoff: Option<real>)

  /** What `Material.UnmarshalJSON` starts from: only alphaCutoff is seeded. */
  const SeededMaterial: MaterialFields := MaterialFields(None, None, None, [0.0, 0.0, 0.0], Some(DefaultAlphaCutoff))

  /** `Material.AlphaCutoffOrDefault`. */
  function AlphaCutoffOrDefault(m: MaterialFields): (a: real)
    ensures m.alphaCutoff.None? ==> a == DefaultAlphaCutoff
    ensures m.alphaCutoff.Some? ==> a == m.alphaCutoff.value
  {
    OrDefault(m.alphaCutoff, DefaultAlphaCutoff)
  }

  /** A pointer-to-struct property: absent or null leaves it nil, anything
      else is decoded by `decode` into a fresh value. */
  function DecodeNested<T>(obj: JsonObject, key: string, decode: Json -> Result<T>): (r: Result<Option<T>>)
    ensures key !in obj || obj[key].Null? ==> r == Ok(None)
    ensures key in obj && !obj[key].Null? && decode(obj[key]).Ok? ==> r == Ok(Some(decode(obj[key]).value))
    ensures key in obj && !obj[key].Null? && decode(obj[key]).Err? ==> r == Err(decode(obj[key]).error)
  {
    if key !in obj || obj[key].Null? then Ok(None)
    else
      match decode(obj[key])
      case Ok(x) => Ok(Some(x))
      case Err(e) => Err(e)
  }

  /** The modelled properties of a material object, decoded over the seed. */
  function DecodeMaterialObject(obj: JsonObject): (r: Result<MaterialFields>)
    ensures r.Ok? && "alphaCutoff" !in obj ==> r.value.alphaCutoff == Some(DefaultAlphaCutoff)
    ensures r.Ok? && "emissiveFactor" !in obj ==> r.value.emissiveFactor == [0.0, 0.0, 0.0]
    ensures r.Ok? && "pbrMetallicRoughness" !in obj ==> r.value.pbr.None?
    ensures r.Ok? && "pbrMetallicRoughness" in obj && !obj["pbrMetallicRoughness"].Null? ==>
              r.value.pbr.Some? && DecodePbr(obj["pbrMetallicRoughness"]) == Ok(r.value.pbr.value)
    // the object decodes when each of its five properties does, and each is what its own decoder gives
    ensures r.Ok? <==>
              && DecodeNested(obj, "pbrMetallicRoughness", DecodePbr).Ok?
              && DecodeNested(obj, "normalTexture", DecodeNormalTexture).Ok?
              && DecodeNested(obj, "occlusionTexture", DecodeOcclusionTexture).Ok?
              && DecodeArrayField("emissiveFactor", obj, [0.0, 0.0, 0.0]).Ok?
              && DecodeNumberField("alphaCutoff", obj, Some(DefaultAlphaCutoff)).Ok?
    ensures r.Ok? ==> r.value.pbr == DecodeNested(obj, "pbrMetallicRoughness", DecodePbr).value
    ensures r.Ok? ==> r.value.normalTexture == DecodeNested(obj, "normalTexture", DecodeNormalTexture).value
    ensures r.Ok? ==> r.value.occlusionTexture == DecodeNested(obj, "occlusionTexture", DecodeOcclusionTexture).value
    ensures r.Ok? ==> r.value.emissiveFactor == DecodeArrayField("emissiveFactor", obj, [0.0, 0.0, 0.0]).value
    ensures r.Ok? ==> r.value.alphaCutoff == DecodeNumberField("alphaCutoff", obj, Some(DefaultAlphaCutoff)).value
  {
    match DecodeNested(obj, "pbrMetallicRoughness", DecodePbr)
    case Err(e) => Err(e)
    case Ok(p) =>
      match DecodeNested(obj, "normalTexture", DecodeNormalTexture)
      case Err(e) => Err(e)
      case Ok(n) =>
        match DecodeNested(obj, "occlusionTexture", DecodeOcclusionTexture)
        case Err(e) => Err(e)
        case Ok(oc) =>
          match DecodeArrayField("emissiveFactor", obj, [0.0, 0.0, 0.0])
          case Err(e) => Err(e)
          case Ok(em) =>
            match DecodeNumberField("alphaCutoff", obj, Some(DefaultAlphaCutoff))
            case Err(e) => Err(e)
            case Ok(a) => Ok(MaterialFields(p, n, oc, em, a))
  }

  /** `Material.UnmarshalJSON` on a JSON value. */
  function DecodeMaterial(data: Json): (r: Result<MaterialFields>)
    ensures data.Null? ==> r == Ok(SeededMaterial)
    ensures data.Object? ==> r == DecodeMaterialObject(data.fields)
    ensures !data.Null? && !data.Object? ==> r == Err(JsonType("material"))
  {
    match data
    case Null => Ok(SeededMaterial)
    case Object(fields) => DecodeMaterialObject(fields)
    case _ => Err(JsonType("material"))
  }

  /** `Material.MarshalJSON`: nested objects are emitted when set, the
      emissive factor unless it is all zero, alphaCutoff when set and not
      0.5. */
  function EncodeMaterial(m: MaterialFields): (o: JsonObject)
    ensures "pbrMetallicRoughness" in o <==> m.pbr.Some?
    ensures "normalTexture" in o <==> m.normalTexture.Some?
    ensures "occlusionTexture" in o <==> m.occlusionTexture.Some?
    ensures "emissiveFactor" in o <==> m.emissiveFactor != [0.0, 0.0, 0.0]
    ensures "alphaCutoff" in o <==> EmitsFactor(m.alphaCutoff, DefaultAlphaCutoff)
  {
    var o: JsonObject := map[];
    var o := if m.pbr.Some? then o["pbrMetallicRoughness" := Object(EncodePbr(m.pbr.value))] else o;
    var o := if m.normalTexture.Some? then o["normalTexture" := Object(EncodeNormalTexture(m.normalTexture.value))] else o;
    var o := if m.occlusionTexture.Some? then o["occlusionTexture" := Object(EncodeOcclusionTexture(m.occlusionTexture.value))] else o;
    var o := if m.emissiveFactor != [0.0, 0.0, 0.0] then o["emissiveFactor" := Array(Numbers(m.emissiveFactor))] else o;
    PutFactor(o, "alphaCutoff", m.alphaCutoff, DefaultAlphaCutoff)
  }

  function MapOption<T, U>(x: Option<T>, f: T -> U): Option<U>
  {
    if x.None? then None else Some(f(x.value))
  }

  function CanonicalMaterial(m: MaterialFields): MaterialFields
  {
    MaterialFields(MapOption(m.pbr, CanonicalPbr), MapOption(m.normalTexture, CanonicalNormalTexture),
                   MapOption(m.occlusionTexture, CanonicalOcclusionTexture), m.emissiveFactor,
                   CanonicalFactor(m.alphaCutoff, DefaultAlphaCutoff))
  }

  /** Encoding then decoding a material gives back every value its getters
      report, with nil factors made explicit. */
  lemma {:induction false} MaterialRoundTrip(m: MaterialFields)
    ensures DecodeMaterial(Object(EncodeMaterial(m))) == Ok(CanonicalMaterial(m))
    ensures AlphaCutoffOrDefault(CanonicalMaterial(m)) == AlphaCutoffOrDefault(m)
  {
    var o := EncodeMaterial(m);
    if m.pbr.Some? {
      PbrRoundTrip(m.pbr.value);
      assert o["pbrMetallicRoughness"] == Object(EncodePbr(m.pbr.value));
    }
    if m.normalTexture.Some? {
      NormalTextureRoundTrip(m.normalTexture.value);
      assert o["normalTexture"] == Object(EncodeNormalTexture(m.normalTexture.value));
    }
    if m.occlusionTexture.Some? {
      OcclusionTextureRoundTrip(m.occlusionTexture.value);
      assert o["occlusionTexture"] == Object(EncodeOcclusionTexture(m.occlusionTexture.value));
    }
    if m.emissiveFactor != [0.0, 0.0, 0.0] {
      assert o["emissiveFactor"] == Array(Numbers(m.emissiveFactor));
      FitNumbers("emissiveFactor", [0.0, 0.0, 0.0], m.emissiveFactor);
    }
    if EmitsFactor(m.alphaCutoff, DefaultAlphaCutoff) {
      assert o["alphaCutoff"] == Number(m.alphaCutoff.value);
    }
    FactorRoundTrip("alphaCutoff", o, m.alphaCutoff, DefaultAlphaCutoff);
  }

  /** A Go `Material`: its modelled fields, overwritten as a whole by a
      successful `UnmarshalJSON`. */
  class Material {
    var pbr: Option<Pbr>
    var normalTexture: Option<NormalTexture>
    var occlusionTexture: Option<OcclusionTexture>
    var emissiveFactor: Vec3
    var alphaCutoff: Option<real>

    function Value(): MaterialFields
      reads this
    {
      MaterialFields(pbr, normalTexture, occlusionTexture, emissiveFactor, alphaCutoff)
    }

    /** `new(Material)`: every pointer nil, the emissive factor zero. */
    constructor ()
      ensures Value() == MaterialFields(None, None, None, [0.0, 0.0, 0.0], None)
    {
      pbr, normalTexture, occlusionTexture, emissiveFactor, alphaCutoff := None, None, None, [0.0, 0.0, 0.0], None;
    }

    /** `Material.UnmarshalJSON`: decode into a seeded copy and assign it to
        the receiver only when decoding succeeded. */
    method UnmarshalJson(data: Json) returns (err: Option<Error>)
      modifies this
      ensures DecodeMaterial(data).Ok? ==> err.None? && Value() == DecodeMaterial(data).value
      ensures DecodeMaterial(data).Err? ==> err == Some(DecodeMaterial(data).error) && Value() == old(Value())
    {
      var tmp := DecodeMaterial(data);
      if tmp.Err? {
        return Some(tmp.error);
      }
      pbr, normalTexture, occlusionTexture := tmp.value.pbr, tmp.value.normalTexture, tmp.value.occlusionTexture;
      emissiveFactor, alphaCutoff := tmp.value.emissiveFactor, tmp.value.alphaCutoff;
      err := None;
    }
  }
}
