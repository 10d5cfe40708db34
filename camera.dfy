/** Camera encoding (struct.go, `Camera.MarshalJSON`): the "type"
    discriminator names the projection the camera carries, perspective
    taking precedence, and a camera with neither projection cannot be
    encoded. */
module Cameras {
  import opened Base

  datatype Orthographic = Orthographic(xmag: real, ymag: real, zfar: real, znear: real)

  datatype Perspective = Perspective(aspectRatio: Option<real>, yfov: real, zfar: Option<real>, znear: real)

  /** The projections of a camera; each is a pointer in Go and may be nil. */
  datatype Camera = Camera(orthographic: Option<Orthographic>, perspective: Option<Perspective>)

  /** The `Orthographic` struct: all four properties are always written. */
  function EncodeOrthographic(o: Orthographic): (j: JsonObject)
    ensures j.Keys == {"xmag", "ymag", "zfar", "znear"}
    ensures j["xmag"] == Number(o.xmag) && j["ymag"] == Number(o.ymag)
    ensures j["zfar"] == Number(o.zfar) && j["znear"] == Number(o.znear)
  {
    map["xmag" := Number(o.xmag), "ymag" := Number(o.ymag), "zfar" := Number(o.zfar), "znear" := Number(o.znear)]
  }

  /** The `Perspective` struct: yfov and znear are always written, the
      optional aspectRatio and zfar only when set. */
  function EncodePerspective(p: Perspective): (j: JsonObject)
    ensures "yfov" in j && "znear" in j
    ensures "aspectRatio" in j <==> p.aspectRatio.Some?
    ensures "zfar" in j <==> p.zfar.Some?
    ensures j.Keys <= {"aspectRatio", "yfov", "zfar", "znear"}
    ensures j["yfov"] == Number(p.yfov) && j["znear"] == Number(p.znear)
    ensures p.aspectRatio.Some? ==> j["aspectRatio"] == Number(p.aspectRatio.value)
    ensures p.zfar.Some? ==> j["zfar"] == Number(p.zfar.value)
  {
    var j := map["yfov" := Number(p.yfov), "znear" := Number(p.znear)];
    var j := if p.aspectRatio.Some? then j["aspectRatio" := Number(p.aspectRatio.value)] else j;
    if p.zfar.Some? then j["zfar" := Number(p.zfar.value)] else j
  }

  /** `Camera.MarshalJSON`. */
  function EncodeCamera(c: Camera): (r: Result<JsonObject>)
    ensures r.Err? <==> c.perspective.None? && c.orthographic.None?
    ensures r.Err? ==> r.error == CameraWithoutProjection
    ensures r.Ok? ==> "type" in r.value
    ensures r.Ok? && c.perspective.Some? ==> r.value["type"] == Str("perspective")
    ensures r.Ok? && c.perspective.None? ==> r.value["type"] == Str("orthographic")
    ensures r.Ok? ==> ("perspective" in r.value <==> c.perspective.Some?)
    ensures r.Ok? ==> ("orthographic" in r.value <==> c.orthographic.Some?)
  {
    if c.perspective.None? && c.orthographic.None? then Err(CameraWithoutProjection)
    else
      var j: JsonObject := map[];
      var j := if c.orthographic.Some? then j["orthographic" := Object(EncodeOrthographic(c.orthographic.value))] else j;
      var j := if c.perspective.Some? then j["perspective" := Object(EncodePerspective(c.perspective.value))] else j;
      Ok(j["type" := Str(if c.perspective.Some? then "perspective" else "orthographic")])
  }

  /** The discriminator always names a projection object that is present in
      the output and holds that projection's encoding; when both projections
      are set it names the perspective one. */
  lemma {:induction false} TypeNamesEmittedProjection(c: Camera)
    requires c.perspective.Some? || c.orthographic.Some?
    ensures var j := EncodeCamera(c).value;
      && j["type"].Str? && j["type"].s in j
      && (c.perspective.Some? ==> j[j["type"].s] == Object(EncodePerspective(c.perspective.value)))
      && (c.perspective.None? ==> j[j["type"].s] == Object(EncodeOrthographic(c.orthographic.value)))
  {
    var j := EncodeCamera(c).value;
    if c.perspective.Some? {
      assert j["type"].s == "perspective";
    } else {
      assert j["type"].s == "orthographic";
    }
  }
}
