/** A node's local transform and the default/sentinel rules of its JSON
    codec (struct.go, `Node`). Decoding seeds the glTF 2.0 defaults before
    the JSON is applied; a freshly allocated Go `Node` instead holds all-zero
    arrays, which the `*OrDefault` getters read as "unset". Encoding is
    modelled as the JSON object of transform properties it emits. */
module Nodes {
  import opened Base
  import opened Fields

  type Matrix = s: seq<real> | |s| == 16
    witness [0.0, 0.0, 0.0, 0.0, 0.0, 0.0, 0.0, 0.0, 0.0, 0.0, 0.0, 0.0, 0.0, 0.0, 0.0, 0.0]
  type Quat = s: seq<real> | |s| == 4 witness [0.0, 0.0, 0.0, 0.0]
  type Vec3 = s: seq<real> | |s| == 3 witness [0.0, 0.0, 0.0]

  /** The identity, column-major. */
  const DefaultMatrix: Matrix := [1.0, 0.0, 0.0, 0.0, 0.0, 1.0, 0.0, 0.0, 0.0, 0.0, 1.0, 0.0, 0.0, 0.0, 0.0, 1.0]
  /** The identity rotation (x, y, z, w). */
  const DefaultRotation: Quat := [0.0, 0.0, 0.0, 1.0]
  const DefaultScale: Vec3 := [1.0, 1.0, 1.0]
  const DefaultTranslation: Vec3 := [0.0, 0.0, 0.0]
  const EmptyMatrix: Matrix := [0.0, 0.0, 0.0, 0.0, 0.0, 0.0, 0.0, 0.0, 0.0, 0.0, 0.0, 0.0, 0.0, 0.0, 0.0, 0.0]
  const EmptyRotation: Quat := [0.0, 0.0, 0.0, 0.0]
  const EmptyScale: Vec3 := [0.0, 0.0, 0.0]

  /** The transform properties of a node. */
  datatype Transform = Transform(matrix: Matrix, rotation: Quat, scale: Vec3, translation: Vec3)

  /** What `UnmarshalJSON` starts from before applying the JSON. */
  const Seeded: Transform := Transform(DefaultMatrix, DefaultRotation, DefaultScale, DefaultTranslation)

  /** The transform of a zero-valued Go `Node`. */
  const Unset: Transform := Transform(EmptyMatrix, EmptyRotation, EmptyScale, DefaultTranslation)

  lemma DefaultsAreNotEmpty()
    ensures DefaultMatrix != EmptyMatrix && DefaultRotation != EmptyRotation && DefaultScale != EmptyScale
  {
    assert DefaultMatrix[0] != EmptyMatrix[0];
    assert DefaultRotation[3] != EmptyRotation[3];
    assert DefaultScale[0] != EmptyScale[0];
  }

  /** `MatrixOrDefault`: the all-zero matrix stands for the identity. */
  function MatrixOrDefault(t: Transform): (m: Matrix)
    ensures m != EmptyMatrix
    ensures t.matrix != EmptyMatrix ==> m == t.matrix
    ensures m == DefaultMatrix <==> t.matrix == EmptyMatrix || t.matrix == DefaultMatrix
  {
    DefaultsAreNotEmpty();
    if t.matrix == EmptyMatrix then DefaultMatrix else t.matrix
  }

  /** `RotationOrDefault`: the all-zero quaternion stands for the identity
      rotation. */
  function RotationOrDefault(t: Transform): (q: Quat)
    ensures q != EmptyRotation
    ensures t.rotation != EmptyRotation ==> q == t.rotation
    ensures q == DefaultRotation <==> t.rotation == EmptyRotation || t.rotation == DefaultRotation
  {
    DefaultsAreNotEmpty();
    if t.rotation == EmptyRotation then DefaultRotation else t.rotation
  }

  /** `ScaleOrDefault`: the all-zero scale stands for the unit scale. */
  function ScaleOrDefault(t: Transform): (s: Vec3)
    ensures s != EmptyScale
    ensures t.scale != EmptyScale ==> s == t.scale
    ensures s == DefaultScale <==> t.scale == EmptyScale || t.scale == DefaultScale
  {
    DefaultsAreNotEmpty();
    if t.scale == EmptyScale then DefaultScale else t.scale
  }

  /** `TranslationOrDefault`: zero is already the default, so there is no
      sentinel and the field is returned as it is. */
  function TranslationOrDefault(t: Transform): (v: Vec3)
    ensures v == t.translation
  {
    t.translation
  }

  /** The transform every getter reports. */
  function OrDefaults(t: Transform): (c: Transform)
    ensures c.matrix != EmptyMatrix && c.rotation != EmptyRotation && c.scale != EmptyScale
  {
    Transform(MatrixOrDefault(t), RotationOrDefault(t), ScaleOrDefault(t), TranslationOrDefault(t))
  }

  /** Applying the getters twice changes nothing more. */
  lemma OrDefaultsIdempotent(t: Transform)
    ensures OrDefaults(OrDefaults(t)) == OrDefaults(t)
  {
  }

  /** A zero-valued node reports the glTF defaults. */
  lemma UnsetReportsDefaults()
    ensures OrDefaults(Unset) == Seeded
  {
  }

  /** The transform properties of a JSON object, decoded over the seeded
      defaults. */
  function DecodeTransform(obj: JsonObject): (r: Result<Transform>)
    ensures r.Ok? && "matrix" !in obj ==> r.value.matrix == DefaultMatrix
    ensures r.Ok? && "rotation" !in obj ==> r.value.rotation == DefaultRotation
    ensures r.Ok? && "scale" !in obj ==> r.value.scale == DefaultScale
    ensures r.Ok? && "translation" !in obj ==> r.value.translation == DefaultTranslation
    ensures r.Err? ==> r.error in {JsonType("matrix"), JsonType("rotation"), JsonType("scale"), JsonType("translation")}
    ensures r.Ok? <==>
      && DecodeArrayField("matrix", obj, DefaultMatrix).Ok?
      && DecodeArrayField("rotation", obj, DefaultRotation).Ok?
      && DecodeArrayField("scale", obj, DefaultScale).Ok?
      && DecodeArrayField("translation", obj, DefaultTranslation).Ok?
    // each property is what its own field decoder makes of the key over its default
    ensures r.Ok? ==> r.value.matrix == DecodeArrayField("matrix", obj, DefaultMatrix).value
    ensures r.Ok? ==> r.value.rotation == DecodeArrayField("rotation", obj, DefaultRotation).value
    ensures r.Ok? ==> r.value.scale == DecodeArrayField("scale", obj, DefaultScale).value
    ensures r.Ok? ==> r.value.translation == DecodeArrayField("translation", obj, DefaultTranslation).value
  {
    match DecodeArrayField("matrix", obj, DefaultMatrix)
    case Err(e) => Err(e)
    case Ok(m) =>
      match DecodeArrayField("rotation", obj, DefaultRotation)
      case Err(e) => Err(e)
      case Ok(q) =>
        match DecodeArrayField("scale", obj, DefaultScale)
        case Err(e) => Err(e)
        case Ok(s) =>
          match DecodeArrayField("translation", obj, DefaultTranslation)
          case Err(e) => Err(e)
          case Ok(v) => Ok(Transform(m, q, s, v))
  }

  /** `Node.UnmarshalJSON` on a JSON value: null leaves the seeded defaults,
      an object is decoded over them, anything else is a type error. */
  function DecodeNode(data: Json): (r: Result<Transform>)
    ensures data.Null? ==> r == Ok(Seeded)
    ensures data.Object? ==> r == DecodeTransform(data.fields)
    ensures !data.Null? && !data.Object? ==> r == Err(JsonType("node"))
  {
    match data
    case Null => Ok(Seeded)
    case Object(fields) => DecodeTransform(fields)
    case _ => Err(JsonType("node"))
  }

  /** `Node.MarshalJSON`, restricted to the transform properties: matrix,
      rotation and scale are omitted when they equal their default or are
      all zero, translation only when it is all zero; everything emitted is
      the array of its components. */
  function EncodeNode(t: Transform): (o: JsonObject)
    ensures o.Keys <= {"matrix", "rotation", "scale", "translation"}
    ensures "matrix" in o <==> t.matrix != DefaultMatrix && t.matrix != EmptyMatrix
    ensures "rotation" in o <==> t.rotation != DefaultRotation && t.rotation != EmptyRotation
    ensures "scale" in o <==> t.scale != DefaultScale && t.scale != EmptyScale
    ensures "translation" in o <==> t.translation != DefaultTranslation
    ensures forall k :: k in o ==> o[k].Array?
    ensures "matrix" in o ==> o["matrix"] == Array(Numbers(t.matrix))
    ensures "rotation" in o ==> o["rotation"] == Array(Numbers(t.rotation))
    ensures "scale" in o ==> o["scale"] == Array(Numbers(t.scale))
    ensures "translation" in o ==> o["translation"] == Array(Numbers(t.translation))
  {
    var m: JsonObject := map[];
    var m := if t.matrix != DefaultMatrix && t.matrix != EmptyMatrix then m["matrix" := Array(Numbers(t.matrix))] else m;
    var m := if t.rotation != DefaultRotation && t.rotation != EmptyRotation then m["rotation" := Array(Numbers(t.rotation))] else m;
    var m := if t.scale != DefaultScale && t.scale != EmptyScale then m["scale" := Array(Numbers(t.scale))] else m;
    if t.translation != DefaultTranslation then m["translation" := Array(Numbers(t.translation))] else m
  }

  /** One emitted-or-omitted array property decodes back to the value the
      getter reports. */
  lemma FieldRoundTrip(key: string, o: JsonObject, seed: seq<real>, v: seq<real>)
    requires |v| == |seed|
    requires key in o ==> o[key] == Array(Numbers(v))
    requires key !in o ==> v == seed
    ensures DecodeArrayField(key, o, seed) == Ok(v)
  {
    if key in o {
      FitNumbers(key, seed, v);
    }
  }

  /** Encoding then decoding a node gives the transform its getters report:
      the round trip is exact except that all-zero matrix, rotation and scale
      come back as the defaults. */
  lemma {:induction false} DecodeEncodeCanonicalises(t: Transform)
    ensures DecodeNode(Object(EncodeNode(t))) == Ok(OrDefaults(t))
  {
    var o := EncodeNode(t);
    var c := OrDefaults(t);
    FieldRoundTrip("matrix", o, DefaultMatrix, c.matrix);
    FieldRoundTrip("rotation", o, DefaultRotation, c.rotation);
    FieldRoundTrip("scale", o, DefaultScale, c.scale);
    FieldRoundTrip("translation", o, DefaultTranslation, c.translation);
  }

  /** Canonicalising does not change what is emitted, so a decoded node
      re-encodes to the same JSON. */
  lemma EncodeIgnoresSentinels(t: Transform)
    ensures EncodeNode(OrDefaults(t)) == EncodeNode(t)
  {
  }

  /** A Go `Node`: its transform fields, overwritten as a whole by a
      successful `UnmarshalJSON`. */
  class Node {
    var matrix: Matrix
    var rotation: Quat
    var scale: Vec3
    var translation: Vec3

    function Value(): Transform
      reads this
    {
      Transform(matrix, rotation, scale, translation)
    }

    /** `new(Node)`: every array field is zero. */
    constructor ()
      ensures Value() == Unset
    {
      matrix, rotation, scale, translation := EmptyMatrix, EmptyRotation, EmptyScale, DefaultTranslation;
    }

    /** `Node.UnmarshalJSON`: decode into a seeded copy and assign it to the
        receiver only when decoding succeeded. */
    method UnmarshalJson(data: Json) returns (err: Option<Error>)
      modifies this
      ensures DecodeNode(data).Ok? ==> err.None? && Value() == DecodeNode(data).value
      ensures DecodeNode(data).Err? ==> err == Some(DecodeNode(data).error) && Value() == old(Value())
    {
      var tmp := DecodeNode(data);
      if tmp.Err? {
        return Some(tmp.error);
      }
      matrix, rotation, scale, translation := tmp.value.matrix, tmp.value.rotation, tmp.value.scale, tmp.value.translation;
      err := None;
    }
  }
}
