/** The registry entity `RegisteredModelDetail`: a model's name, its type (a `ModelType`
    label), an optional description and an optional version entity, with its mappers to and
    from the two wire shapes.

    The version entity (`ModelVersionDetail`) is not part of this model: its type is the
    parameter `V`, its wire message the parameter `W`, and its two mappers are supplied as a
    `VersionMapper`. Enum conversions that fail, and errors the version mapper raises, are the
    `Err` case of a `Result`; an input message that is None gives `Ok(None)`. */
module RegisteredModelDetails {
  import opened Wrappers
  import opened ProtoEnum
  import opened Messages

  /** The entity. Fields are set once, by the constructor. */
  datatype RegisteredModelDetail<V> = RegisteredModelDetail(
    modelName: string,
    modelType: string,
    modelDesc: Option<string>,
    modelVersion: Option<V>)

  /** What the entity uses of `ModelVersionDetail`: `from_proto` on a version message,
      `to_meta_proto` on a version entity, and the default instance of the version message
      (what reading an unset `model_version` field yields). Either mapper may raise; what it
      raises is an `E`. */
  datatype VersionMapper<!V, !W, E> = VersionMapper(
    fromProto: W -> Result<Option<V>, E>,
    toMetaProto: V -> Result<W, E>,
    emptyMessage: W)

  /** What the detail mappers raise: an enum conversion error of their own, or whatever the
      version mapper raised. */
  datatype DetailError<E> = EnumFailure(enumError: EnumError) | VersionFailure(versionError: E)

  /** The constructor: description and version default to None, and the model type is stored
      as given, with no check that it is a declared `ModelType` label. */
  function New<V>(modelName: string, modelType: string,
                  modelDesc: Option<string> := None, modelVersion: Option<V> := None)
    : (r: RegisteredModelDetail<V>)
    ensures r.modelName == modelName && r.modelType == modelType
    ensures r.modelDesc == modelDesc && r.modelVersion == modelVersion
  {
    RegisteredModelDetail(modelName, modelType, modelDesc, modelVersion)
  }

  /** `from_proto`: decode a meta message (or None). */
  function FromProto<V>(d: EnumDescriptor, proto: Option<RegisteredModelMeta>)
    : (r: Result<Option<RegisteredModelDetail<V>>, EnumError>)
    ensures proto.None? ==> r == Ok(None)
    ensures proto.Some? ==> (r.Err? <==> Name(d, proto.value.modelType).Err?)
    ensures proto.Some? && r.Err? ==> r.error == UnknownEnumValue(proto.value.modelType)
    ensures r.Ok? && proto.Some? ==> r.value.Some?
    ensures r.Ok? && r.value.Some? ==> proto.Some? && r.value.value.modelName == proto.value.modelName
    ensures r.Ok? && r.value.Some? ==> Name(d, proto.value.modelType) == Ok(r.value.value.modelType)
    ensures r.Ok? && r.value.Some? ==> (r.value.value.modelDesc.None? <==> !proto.value.HasModelDesc())
    ensures r.Ok? && r.value.Some? && proto.value.HasModelDesc() ==>
      r.value.value.modelDesc == Some(proto.value.modelDesc.value.value)
    ensures r.Ok? && r.value.Some? ==> r.value.value.modelVersion.None?
  {
    match proto
    case None => Ok(None)
    case Some(m) =>
      var modelType :- Name(d, m.modelType);
      Ok(Some(New(m.modelName, modelType, UnwrapDesc(m))))
  }

  /** `from_detail_proto`: decode a detail message (or None). The version is whatever the
      version mapper makes of the `model_version` field as read, which is the default instance
      when the field is unset. */
  function FromDetailProto<V, W, E>(d: EnumDescriptor, versions: VersionMapper<V, W, E>,
                                    proto: Option<RegisteredModelDetailMessage<W>>)
    : (r: Result<Option<RegisteredModelDetail<V>>, DetailError<E>>)
    ensures proto.None? ==> r == Ok(None)
    // the model type is converted first, so its error wins
    ensures proto.Some? && Name(d, proto.value.RegisteredModel().modelType).Err? ==>
      r == Err(EnumFailure(UnknownEnumValue(proto.value.RegisteredModel().modelType)))
    ensures proto.Some? && Name(d, proto.value.RegisteredModel().modelType).Ok? ==>
      var version := versions.fromProto(proto.value.ModelVersion(versions.emptyMessage));
      && (r.Err? <==> version.Err?)
      && (version.Err? ==> r.error == VersionFailure(version.error))
    ensures r.Ok? && proto.Some? ==>
      && r.value.Some?
      && Ok(r.value.value.modelVersion) == versions.fromProto(proto.value.ModelVersion(versions.emptyMessage))
  {
    match proto
    case None => Ok(None)
    case Some(p) =>
      var registeredModel := p.RegisteredModel();
      var modelVersion := p.ModelVersion(versions.emptyMessage);
      match Name(d, registeredModel.modelType)
      case Err(e) => Err(EnumFailure(e))
      case Ok(modelType) =>
        match versions.fromProto(modelVersion)
        case Err(e) => Err(VersionFailure(e))
        case Ok(version) =>
          Ok(Some(New(registeredModel.modelName, modelType, UnwrapDesc(registeredModel), version)))
  }

  /** `to_meta_proto`: the meta message of an entity. Assigning the model type label to the
      enum field fails when the label is not declared. */
  function ToMetaProto<V>(d: EnumDescriptor, x: RegisteredModelDetail<V>)
    : (r: Result<RegisteredModelMeta, EnumError>)
    ensures r.Ok? <==> Value(d, x.modelType).Ok?
    ensures r.Err? ==> r.error == UnknownEnumName(x.modelType)
    ensures r.Ok? ==>
      && r.value.modelName == x.modelName
      && Value(d, x.modelType) == Ok(r.value.modelType)
      && (r.value.HasModelDesc() <==> x.modelDesc.Some?)
      && (x.modelDesc.Some? ==> r.value.modelDesc == Some(StringValue(x.modelDesc.value)))
      && exists i :: 0 <= i < |d| && d[i] == EnumValue(x.modelType, r.value.modelType)
  {
    var modelType :- Value(d, x.modelType);
    Ok(RegisteredModelMeta(x.modelName, modelType, WrapString(x.modelDesc)))
  }

  /** `to_detail_proto`: the detail message of an entity. Both branches build the meta
      sub-message afresh; the version sub-message is set only when there is a version. */
  function ToDetailProto<V, W, E>(d: EnumDescriptor, versions: VersionMapper<V, W, E>,
                                  x: RegisteredModelDetail<V>)
    : (r: Result<RegisteredModelDetailMessage<W>, DetailError<E>>)
    // the meta sub-message is built first, so its error wins
    ensures ToMetaProto(d, x).Err? ==> r == Err(EnumFailure(ToMetaProto(d, x).error))
    ensures ToMetaProto(d, x).Ok? && x.modelVersion.None? ==> r.Ok?
    ensures ToMetaProto(d, x).Ok? && x.modelVersion.Some? ==>
      var version := versions.toMetaProto(x.modelVersion.value);
      && (r.Err? <==> version.Err?)
      && (version.Err? ==> r.error == VersionFailure(version.error))
    ensures r.Ok? ==> r.value.registeredModel == Some(ToMetaProto(d, x).value)
    ensures r.Ok? ==> (r.value.modelVersion.None? <==> x.modelVersion.None?)
    ensures r.Ok? && x.modelVersion.Some? ==>
      Ok(r.value.modelVersion.value) == versions.toMetaProto(x.modelVersion.value)
  {
    if x.modelVersion.None? then
      match Value(d, x.modelType)
      case Err(e) => Err(EnumFailure(e))
      case Ok(modelType) =>
        Ok(RegisteredModelDetailMessage(
          Some(RegisteredModelMeta(x.modelName, modelType, WrapString(x.modelDesc))),
          None))
    else
      match Value(d, x.modelType)
      case Err(e) => Err(EnumFailure(e))
      case Ok(modelType) =>
        var registeredModel := RegisteredModelMeta(x.modelName, modelType, WrapString(x.modelDesc));
        match versions.toMetaProto(x.modelVersion.value)
        case Err(e) => Err(VersionFailure(e))
        case Ok(version) => Ok(RegisteredModelDetailMessage(Some(registeredModel), Some(version)))
  }

  /** Entity to meta message and back: for a declared model type, name, type and description
      come back unchanged and the version is dropped. */
  lemma MetaRoundTrip<V>(d: EnumDescriptor, x: RegisteredModelDetail<V>)
    requires WellFormed(d) && Value(d, x.modelType).Ok?
    ensures ToMetaProto(d, x).Ok?
    ensures FromProto(d, Some(ToMetaProto(d, x).value)) == Ok(Some(x.(modelVersion := None)))
  {
    NameOfValue(d, x.modelType);
  }

  /** Meta message to entity and back: a message whose model type number is declared is
      reproduced exactly, description presence included. */
  lemma MetaMessageRoundTrip<V>(d: EnumDescriptor, m: RegisteredModelMeta)
    requires WellFormed(d) && Name(d, m.modelType).Ok?
    ensures FromProto<V>(d, Some(m)).Ok?
    ensures ToMetaProto(d, FromProto<V>(d, Some(m)).value.value) == Ok(m)
  {
    ValueOfName(d, m.modelType);
    WrapUnwrap(m);
  }

  /** Entity to detail message and back. When the entity has a version, the version mapper
      must serialise it without raising and invert its own serialiser on it; when it has none,
      the mapper must turn the default version message into None. Under these hypotheses the
      entity comes back unchanged. */
  lemma DetailRoundTrip<V, W, E>(d: EnumDescriptor, versions: VersionMapper<V, W, E>,
                                 x: RegisteredModelDetail<V>)
    requires WellFormed(d) && Value(d, x.modelType).Ok?
    requires x.modelVersion.Some? ==>
      && versions.toMetaProto(x.modelVersion.value).Ok?
      && versions.fromProto(versions.toMetaProto(x.modelVersion.value).value) == Ok(x.modelVersion)
    requires x.modelVersion.None? ==> versions.fromProto(versions.emptyMessage) == Ok(None)
    ensures ToDetailProto(d, versions, x).Ok?
    ensures FromDetailProto(d, versions, Some(ToDetailProto(d, versions, x).value)) == Ok(Some(x))
  {
    NameOfValue(d, x.modelType);
  }

  /** A detail message with no version sub-message does not decode to a version of None by
      itself: the version is what the mapper makes of the default version message. */
  lemma UnsetVersionDecodesDefault<V, W, E>(d: EnumDescriptor, versions: VersionMapper<V, W, E>,
                                            m: RegisteredModelMeta)
    requires Name(d, m.modelType).Ok?
    ensures var r := FromDetailProto(d, versions, Some(RegisteredModelDetailMessage(Some(m), None)));
      && (r.Ok? <==> versions.fromProto(versions.emptyMessage).Ok?)
      && (r.Ok? ==> r.value.Some? && Ok(r.value.value.modelVersion) == versions.fromProto(versions.emptyMessage))
  {
  }

  /** The detail decoder reads the meta sub-message exactly as the meta decoder does: same
      failure, and on success the same name, type and description. */
  lemma DetailDecodeAgreesWithMeta<V, W, E>(d: EnumDescriptor, versions: VersionMapper<V, W, E>,
                                            p: RegisteredModelDetailMessage<W>)
    ensures var meta := FromProto<V>(d, Some(p.RegisteredModel()));
      var detail := FromDetailProto(d, versions, Some(p));
      && (meta.Err? ==> detail == Err(EnumFailure(meta.error)))
      && (detail.Ok? ==> meta.Ok? && detail.value.value == meta.value.value.(modelVersion := detail.value.value.modelVersion))
  {
  }

  /** A model type number with no declared label is rejected on both decode paths. */
  lemma UnknownNumberRejected<V, W, E>(d: EnumDescriptor, versions: VersionMapper<V, W, E>,
                                       m: RegisteredModelMeta, version: Option<W>)
    requires forall i :: 0 <= i < |d| ==> d[i].number != m.modelType
    ensures FromProto<V>(d, Some(m)) == Err(UnknownEnumValue(m.modelType))
    ensures FromDetailProto(d, versions, Some(RegisteredModelDetailMessage(Some(m), version)))
         == Err(EnumFailure(UnknownEnumValue(m.modelType)))
  {
  }

  /** An empty description and a missing one stay distinct through serialisation and back. */
  lemma EmptyDescriptionIsKept<V>(d: EnumDescriptor, x: RegisteredModelDetail<V>)
    requires WellFormed(d) && Value(d, x.modelType).Ok?
    ensures ToMetaProto(d, x.(modelDesc := Some(""))) != ToMetaProto(d, x.(modelDesc := None))
    ensures FromProto<V>(d, Some(ToMetaProto(d, x.(modelDesc := Some(""))).value)).value.value.modelDesc == Some("")
    ensures FromProto<V>(d, Some(ToMetaProto(d, x.(modelDesc := None)).value)).value.value.modelDesc == None
  {
    MetaRoundTrip(d, x.(modelDesc := Some("")));
    MetaRoundTrip(d, x.(modelDesc := None));
  }
}
