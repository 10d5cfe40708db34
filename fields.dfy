/** How Go's `encoding/json` stores a JSON value into the field kinds the
    glTF structs use for defaulted properties: fixed-size float arrays
    (`[N]float64`) and optional floats (`*float64`), starting from the value
    the field was seeded with. Floats are modelled as `real` and only ever
    compared for equality. */
module Fields {
  import opened Base

  /** `n` zero components. */
  function RealZeros(n: nat): (z: seq<real>)
    ensures |z| == n && forall i :: 0 <= i < n ==> z[i] == 0.0
  {
    seq(n, _ => 0.0)
  }

  /** The JSON array of numbers that `json.Marshal` writes for a float array. */
  function Numbers(vs: seq<real>): (items: seq<Json>)
    ensures |items| == |vs| && forall i :: 0 <= i < |vs| ==> items[i] == Number(vs[i])
  {
    seq(|vs|, i requires 0 <= i < |vs| => Number(vs[i]))
  }

  /** Component `k` of a fixed-size array after decoding `items` into it:
      a number replaces the seeded component, a JSON null leaves it, anything
      else is a type error, and components past the end of `items` are set
      to zero. */
  function FitElement(key: string, seed: seq<real>, items: seq<Json>, k: nat): Result<real>
    requires k < |seed|
  {
    if k >= |items| then Ok(0.0)
    else
      match items[k]
      case Null => Ok(seed[k])
      case Number(n) => Ok(n)
      case _ => Err(JsonType(key))
  }

  /** Components `k..` of the decoded array. */
  function FitFrom(key: string, seed: seq<real>, items: seq<Json>, k: nat): (r: Result<seq<real>>)
    requires k <= |seed|
    ensures r.Ok? ==>
      && |r.value| == |seed| - k
      && forall j :: k <= j < |seed| ==> FitElement(key, seed, items, j) == Ok(r.value[j - k])
    ensures r.Err? ==> r.error == JsonType(key) && exists j :: k <= j < |seed| && FitElement(key, seed, items, j).Err?
    decreases |seed| - k
  {
    if k == |seed| then Ok([])
    else
      match FitElement(key, seed, items, k)
      case Err(e) => Err(e)
      case Ok(x) =>
        match FitFrom(key, seed, items, k + 1)
        case Err(e) => Err(e)
        case Ok(rest) => Ok([x] + rest)
  }

  /** `FitFrom` from index 0 read component by component. */
  lemma FitFromStart(key: string, seed: seq<real>, items: seq<Json>)
    ensures var r := FitFrom(key, seed, items, 0);
      && (r.Ok? ==> forall j :: 0 <= j < |seed| ==> FitElement(key, seed, items, j) == Ok(r.value[j]))
      && (r.Ok? ==> forall j :: 0 <= j < |items| && j < |seed| ==> items[j].Null? || items[j].Number?)
      && (r.Err? ==> exists j :: 0 <= j < |seed| && FitElement(key, seed, items, j).Err?)
  {
    var r := FitFrom(key, seed, items, 0);
    if r.Ok? {
      forall j | 0 <= j < |seed| ensures FitElement(key, seed, items, j) == Ok(r.value[j]) {
        assert FitElement(key, seed, items, j) == Ok(r.value[j - 0]);
      }
      forall j | 0 <= j < |items| && j < |seed| ensures items[j].Null? || items[j].Number? {
        assert FitElement(key, seed, items, j).Ok?;
      }
    }
  }

  /** Decoding the JSON array `items` into a `[N]float64` field seeded with
      `seed` (N = |seed|): elements past N are skipped unchecked, missing
      elements become zero, null elements keep the seeded component. */
  function FitArray(key: string, seed: seq<real>, items: seq<Json>): (r: Result<seq<real>>)
    ensures r.Ok? ==> |r.value| == |seed|
    ensures r.Ok? ==> forall j :: 0 <= j < |seed| ==>
      && (j >= |items| ==> r.value[j] == 0.0)
      && (j < |items| && items[j].Null? ==> r.value[j] == seed[j])
      && (j < |items| && items[j].Number? ==> r.value[j] == items[j].n)
    ensures r.Err? <==> exists j :: 0 <= j < |items| && j < |seed| && !items[j].Null? && !items[j].Number?
    ensures r.Err? ==> r.error == JsonType(key)
  {
    FitFromStart(key, seed, items);
    FitFrom(key, seed, items, 0)
  }

  /** An array of exactly N numbers decodes to exactly those numbers, whatever
      the seed. */
  lemma {:induction false} FitNumbers(key: string, seed: seq<real>, vs: seq<real>)
    requires |vs| == |seed|
    ensures FitArray(key, seed, Numbers(vs)) == Ok(vs)
  {
    var items := Numbers(vs);
    var r := FitArray(key, seed, items);
    assert r.Ok?;
    assert r.value == vs by {
      forall j | 0 <= j < |vs| ensures r.value[j] == vs[j] {
        assert items[j] == Number(vs[j]);
      }
    }
  }

  /** A `[N]float64` property of a JSON object: absent or null leaves the
      seeded value, an array is fitted into it, anything else is a type
      error. */
  function DecodeArrayField(key: string, obj: JsonObject, seed: seq<real>): (r: Result<seq<real>>)
    ensures r.Ok? ==> |r.value| == |seed|
    ensures (key !in obj || obj[key].Null?) ==> r == Ok(seed)
    ensures key in obj && obj[key].Array? ==> r == FitArray(key, seed, obj[key].items)
    ensures key in obj && !obj[key].Null? && !obj[key].Array? ==> r == Err(JsonType(key))
  {
    if key !in obj then Ok(seed)
    else
      match obj[key]
      case Null => Ok(seed)
      case Array(items) => FitArray(key, seed, items)
      case _ => Err(JsonType(key))
  }

  /** A `*float64` property of a JSON object: absent leaves the seeded
      pointer, null sets it to nil, a number points to that number, anything
      else is a type error. */
  function DecodeNumberField(key: string, obj: JsonObject, seed: Option<real>): (r: Result<Option<real>>)
    ensures key !in obj ==> r == Ok(seed)
    ensures key in obj && obj[key].Null? ==> r == Ok(None)
    ensures key in obj && obj[key].Number? ==> r == Ok(Some(obj[key].n))
    ensures r.Err? <==> key in obj && !obj[key].Null? && !obj[key].Number?
  {
    if key !in obj then Ok(seed)
    else
      match obj[key]
      case Null => Ok(None)
      case Number(n) => Ok(Some(n))
      case _ => Err(JsonType(key))
  }
}
