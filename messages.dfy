/** The two Protocol Buffers message shapes the entity maps to and from, with field
    presence made explicit: a message-typed field that is unset is `None`.
    Reading an unset message-typed field of a real message yields that field's default
    instance, never None; `RegisteredModel` and `ModelVersion` model that read. */
module Messages {
  import opened Wrappers

  /** The `StringValue` wrapper message: it lets a string field be absent, not only empty. */
  datatype StringValue = StringValue(value: string)

  /** `RegisteredModelMeta`: the compact shape. `modelType` is the enum's number. */
  datatype RegisteredModelMeta = RegisteredModelMeta(
    modelName: string,
    modelType: int,
    modelDesc: Option<StringValue>)
  {
    /** `HasField("model_desc")`. */
    predicate HasModelDesc() {
      modelDesc.Some?
    }
  }

  /** The default instance of `RegisteredModelMeta`: every field at its zero value, `model_desc` unset. */
  const DefaultMeta := RegisteredModelMeta("", 0, None)

  /** `RegisteredModelDetail` (the message): a meta sub-message and a version sub-message of
      wire type `W`, each of which may be unset. */
  datatype RegisteredModelDetailMessage<W> = RegisteredModelDetailMessage(
    registeredModel: Option<RegisteredModelMeta>,
    modelVersion: Option<W>)
  {
    /** Reading `registered_model`: the sub-message, or the default instance when unset. */
    function RegisteredModel(): (r: RegisteredModelMeta)
      ensures registeredModel.Some? ==> r == registeredModel.value
      ensures registeredModel.None? ==> r.modelName == "" && r.modelType == 0 && !r.HasModelDesc()
    {
      registeredModel.GetOr(DefaultMeta)
    }

    /** Reading `model_version`: the sub-message, or `emptyVersion` (the default instance of
        the version message) when unset. */
    function ModelVersion(emptyVersion: W): (r: W)
      ensures modelVersion.Some? ==> r == modelVersion.value
      ensures modelVersion.None? ==> r == emptyVersion
    {
      modelVersion.GetOr(emptyVersion)
    }
  }

  /** The service's `stringValue` helper, under the assumption that it leaves the field
      unset for None and wraps any other string, the empty one included. */
  function WrapString(v: Option<string>): (r: Option<StringValue>)
    ensures r.Some? <==> v.Some?
    ensures r.Some? ==> r.value.value == v.value
  {
    match v
    case None => None
    case Some(s) => Some(StringValue(s))
  }

  /** The decoders' reading of `model_desc`: the wrapped value when the field is present,
      None otherwise. */
  function UnwrapDesc(m: RegisteredModelMeta): (r: Option<string>)
    ensures r.None? <==> !m.HasModelDesc()
  {
    if m.HasModelDesc() then Some(m.modelDesc.value.value) else None
  }

  /** Presence survives the wrapper in both directions: None stays unset and back, and any
      string, "" included, is wrapped and unwrapped unchanged. */
  lemma DescRoundTrip(name: string, modelType: int, desc: Option<string>)
    ensures UnwrapDesc(RegisteredModelMeta(name, modelType, WrapString(desc))) == desc
  {
  }

  /** The other direction: re-wrapping what was unwrapped gives back the field as it was. */
  lemma WrapUnwrap(m: RegisteredModelMeta)
    ensures WrapString(UnwrapDesc(m)) == m.modelDesc
  {
  }
}
