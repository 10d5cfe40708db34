/** Shared vocabulary of the glTF decoder model: bytes, unsigned 32-bit
    integers, optional and fallible results, error kinds, abstract JSON values,
    and the first-occurrence search that `strings.HasPrefix`,
    `strings.Contains` and `bytes.Replace(…, 1)` rely on. */
module Base {

  /** An unsigned 8-bit value (Go `uint8`). */
  type Byte = b: int | 0 <= b < 0x100

  /** An unsigned 32-bit value (Go `uint32`). */
  type U32 = x: int | 0 <= x < 0x1_0000_0000

  const TwoTo32: int := 0x1_0000_0000

  datatype Option<+T> = None | Some(value: T)

  datatype Result<+T> = Ok(value: T) | Err(error: Error)

  /** The error conditions of the decode pipeline, one constructor per kind. */
  datatype Error =
    | QuotaExceeded(what: string)
    | InvalidGlbJsonHeader
    | InvalidGlbBinHeader
    | InvalidByteLength
    | BufferWithoutUri
    | InvalidBufferUri(uri: string)
    | UnexpectedEof
    | Eof
    | CorruptBase64
    | MalformedDataUri(uri: string)
    | JsonSyntax
    | JsonType(key: string)
    | CameraWithoutProjection
    | Io(message: string)

  /** A JSON value, as the object model sees it once it has been parsed. */
  datatype Json =
    | Null
    | Bool(b: bool)
    | Number(n: real)
    | Str(s: string)
    | Array(items: seq<Json>)
    | Object(fields: map<string, Json>)

  /** A JSON object: the keys it holds and their values. */
  type JsonObject = map<string, Json>

  function Zeros(n: nat): (z: seq<Byte>)
    ensures |z| == n && forall i :: 0 <= i < n ==> z[i] == 0
  {
    seq(n, _ => 0)
  }

  function Min(a: int, b: int): (m: int)
    ensures m <= a && m <= b && (m == a || m == b)
  {
    if a <= b then a else b
  }

  /** `p` occurs in `s` at index `i`. */
  ghost predicate OccursAt<T>(s: seq<T>, p: seq<T>, i: int)
  {
    0 <= i && i + |p| <= |s| && s[i..i + |p|] == p
  }

  /** The index of the leftmost occurrence of `p` in `s`, searching from `from`
      (the search behind `strings.Contains` and `bytes.Replace(s, p, q, 1)`). */
  function FirstIndexFrom<T(==)>(s: seq<T>, p: seq<T>, from: nat): (r: Option<nat>)
    requires from <= |s|
    ensures r.Some? ==> from <= r.value && OccursAt(s, p, r.value)
    ensures r.Some? ==> forall j :: from <= j < r.value ==> !OccursAt(s, p, j)
    ensures r.None? ==> forall j :: from <= j ==> !OccursAt(s, p, j)
    decreases |s| - from
  {
    if from + |p| > |s| then None
    else if s[from..from + |p|] == p then Some(from)
    else FirstIndexFrom(s, p, from + 1)
  }

  function FirstIndex<T(==)>(s: seq<T>, p: seq<T>): (r: Option<nat>)
    ensures r.Some? ==> OccursAt(s, p, r.value) && forall j :: 0 <= j < r.value ==> !OccursAt(s, p, j)
    ensures r.None? ==> forall j :: !OccursAt(s, p, j)
  {
    FirstIndexFrom(s, p, 0)
  }

  /** The leftmost occurrence is the one with no occurrence before it. */
  lemma FirstIndexIs<T>(s: seq<T>, p: seq<T>, i: nat)
    requires OccursAt(s, p, i) && forall j :: 0 <= j < i ==> !OccursAt(s, p, j)
    ensures FirstIndex(s, p) == Some(i)
  {
  }

  /** The search moves past a position whose first two elements do not
      start `p`. */
  lemma SkipAt<T>(s: seq<T>, p: seq<T>, m: nat)
    requires |p| >= 2 && m + 1 < |s| && (s[m] != p[0] || s[m + 1] != p[1])
    ensures FirstIndexFrom(s, p, m) == FirstIndexFrom(s, p, m + 1)
  {
    if m + |p| <= |s| {
      assert s[m..m + |p|][0] == s[m] && s[m..m + |p|][1] == s[m + 1];
    }
  }

  /** The search moves past a run of such positions. */
  lemma {:induction false} SkipRange<T>(s: seq<T>, p: seq<T>, from: nat, to: nat)
    requires |p| >= 2 && from <= to && to + 1 <= |s|
    requires forall m :: from <= m < to ==> s[m] != p[0] || s[m + 1] != p[1]
    ensures FirstIndexFrom(s, p, from) == FirstIndexFrom(s, p, to)
    decreases (to as int) - (from as int)
  {
    if from < to {
      SkipAt(s, p, from);
      SkipRange(s, p, from + 1, to);
    }
  }

  /** Go's `strings.Contains(s, p)`. */
  predicate Contains<T(==)>(s: seq<T>, p: seq<T>)
  {
    FirstIndex(s, p).Some?
  }

  /** Go's `bytes.Replace(s, p, q, 1)`: the leftmost occurrence of `p`, if
      any, is replaced by `q`; everything else is left as it was. */
  function ReplaceFirst<T(==)>(s: seq<T>, p: seq<T>, q: seq<T>): (r: seq<T>)
    ensures !Contains(s, p) ==> r == s
    ensures |r| == if Contains(s, p) then |s| - |p| + |q| else |s|
  {
    match FirstIndex(s, p)
    case None => s
    case Some(i) =>
      s[..i] + q + s[i + |p|..]
  }

  /** The occurrence replaced is the leftmost one, and only it changes. */
  lemma ReplaceFirstLeftmost<T>(s: seq<T>, p: seq<T>, q: seq<T>, i: nat)
    requires OccursAt(s, p, i) && forall j :: 0 <= j < i ==> !OccursAt(s, p, j)
    ensures ReplaceFirst(s, p, q) == s[..i] + q + s[i + |p|..]
  {
    FirstIndexIs(s, p, i);
  }

  /** Replacing at a known leftmost occurrence. */
  lemma ReplaceAt<T>(s: seq<T>, p: seq<T>, q: seq<T>, i: nat)
    requires FirstIndex(s, p) == Some(i)
    ensures i + |p| <= |s| && ReplaceFirst(s, p, q) == s[..i] + q + s[i + |p|..]
  {
  }
}
