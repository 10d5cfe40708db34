/** The extension registry and the decoding of an `extensions` object
    (struct.go, `RegisterExtension` and `Extensions.UnmarshalJSON`). Each
    property of the object is kept either as the typed value produced by the
    factory registered under its key, when that factory's decoding
    succeeds, or as its raw JSON bytes. */
module Extensions {
  import opened Base

  /** The bytes of one JSON value, undecoded (`json.RawMessage`). */
  type RawMessage = seq<Byte>

  /** A registered factory together with the `json.Unmarshal` into the value
      it returns: the typed extension value, or the decoding error. */
  type Factory = RawMessage -> Result<Json>

  /** What an `Extensions` map holds under a key. */
  datatype ExtensionValue = Decoded(value: Json) | Raw(bytes: RawMessage)

  /** The package-level registry of extension factories. */
  class Registry {
    var factories: map<string, Factory>

    constructor ()
      ensures factories == map[]
    {
      factories := map[];
    }

    /** `RegisterExtension`: the factory for `key` is set, replacing any
        earlier one; the other keys keep theirs. */
    method RegisterExtension(key: string, f: Factory)
      modifies this
      ensures factories == old(factories)[key := f]
      ensures key in factories && factories[key] == f
      ensures forall k :: k in old(factories) && k != key ==> k in factories && factories[k] == old(factories)[k]
    {
      factories := factories[key := f];
    }
  }

  /** The value stored for one property of the extensions object: typed when
      a factory is registered for the key and it decodes the bytes, otherwise
      the bytes themselves. */
  function Dispatch(factories: map<string, Factory>, key: string, raw: RawMessage): (v: ExtensionValue)
    ensures v.Decoded? <==> key in factories && factories[key](raw).Ok?
    ensures v.Decoded? ==> factories[key](raw) == Ok(v.value)
    ensures v.Raw? ==> v.bytes == raw
  {
    if key in factories then
      match factories[key](raw)
      case Ok(x) => Decoded(x)
      case Err(_) => Raw(raw)
    else Raw(raw)
  }

  /** The map after decoding `envelope` into `existing`: every key of the
      envelope is (re)set by `Dispatch`, every other key keeps its entry. */
  function Merge(existing: map<string, ExtensionValue>, factories: map<string, Factory>,
                 envelope: map<string, RawMessage>): (m: map<string, ExtensionValue>)
    ensures m.Keys == existing.Keys + envelope.Keys
    ensures forall k :: k in envelope ==> m[k] == Dispatch(factories, k, envelope[k])
    ensures forall k :: k in existing && k !in envelope ==> m[k] == existing[k]
  {
    map k | k in existing.Keys + envelope.Keys :: if k in envelope then Dispatch(factories, k, envelope[k]) else existing[k]
  }

  /** Taking one more envelope key into account updates that key only. */
  lemma MergeStep(existing: map<string, ExtensionValue>, factories: map<string, Factory>,
                  done: map<string, RawMessage>, key: string, raw: RawMessage)
    ensures Merge(existing, factories, done[key := raw]) ==
            Merge(existing, factories, done)[key := Dispatch(factories, key, raw)]
  {
    var a := Merge(existing, factories, done[key := raw]);
    var b := Merge(existing, factories, done)[key := Dispatch(factories, key, raw)];
    assert a.Keys == b.Keys;
    forall k | k in a.Keys ensures a[k] == b[k] {
    }
  }

  /** A decoding failure for one key is never an error of the whole object:
      merging always yields an entry for every envelope key, typed or raw. */
  lemma {:induction false} MergeNeverDropsKeys(existing: map<string, ExtensionValue>, factories: map<string, Factory>,
                                               envelope: map<string, RawMessage>)
    ensures forall k :: k in envelope ==>
      var v := Merge(existing, factories, envelope)[k];
      (v.Raw? && v.bytes == envelope[k]) || (k in factories && factories[k](envelope[k]) == Ok(v.value))
  {
    forall k | k in envelope
      ensures var v := Merge(existing, factories, envelope)[k];
        (v.Raw? && v.bytes == envelope[k]) || (k in factories && factories[k](envelope[k]) == Ok(v.value))
    {
      var v := Dispatch(factories, k, envelope[k]);
      assert Merge(existing, factories, envelope)[k] == v;
    }
  }

  /** An `Extensions` map. */
  class Extensions {
    var entries: map<string, ExtensionValue>

    constructor ()
      ensures entries == map[]
    {
      entries := map[];
    }

    /** `Extensions.UnmarshalJSON`. `envelope` is the outcome of decoding the
        data as an object of raw values: on failure its error is returned and
        the map is left as it was; otherwise each key is dispatched in turn,
        and per-key decoding failures are not reported. */
    method UnmarshalJson(registry: Registry, envelope: Result<map<string, RawMessage>>) returns (err: Option<Error>)
      modifies this
      ensures envelope.Err? ==> err == Some(envelope.error) && entries == old(entries)
      ensures envelope.Ok? ==> err.None? && entries == Merge(old(entries), registry.factories, envelope.value)
    {
      if envelope.Err? {
        return Some(envelope.error);
      }
      var raw := envelope.value;
      var pending := raw.Keys;
      ghost var done: map<string, RawMessage> := map[];
      while pending != {}
        invariant pending <= raw.Keys
        invariant forall k :: k in done <==> k in raw && k !in pending
        invariant forall k :: k in done ==> done[k] == raw[k]
        invariant entries == Merge(old(entries), registry.factories, done)
        decreases |pending|
      {
        var key :| key in pending;
        MergeStep(old(entries), registry.factories, done, key, raw[key]);
        entries := entries[key := Dispatch(registry.factories, key, raw[key])];
        done := done[key := raw[key]];
        pending := pending - {key};
      }
      assert done == raw;
      err := None;
    }
  }
}
