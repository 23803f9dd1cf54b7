# RegisteredModelDetail: entity and wire mappers of the AI Flow model registry

This project models `RegisteredModelDetail`, the model-center entity that describes a
registered model: its name, its model type (a label of the `ModelType` enum), an optional
description and an optional version entity (`ModelVersionDetail`). It covers the entity's
constructor and its four mappers:

- `from_proto` decodes a `RegisteredModelMeta` message.
- `from_detail_proto` decodes a `RegisteredModelDetail` message, which holds a meta
  sub-message and a version sub-message.
- `to_meta_proto` encodes the entity as a meta message.
- `to_detail_proto` encodes the entity as a detail message.

It also covers `_properties`, the sorted listing of property names.

The source is pure, so the model uses datatypes, functions and lemmas:

- `wrappers.dfy` holds `Option` and `Result`. `Option` stands for a value that may be
  Python's None or a message field that may be unset. `Result` stands for a call that may
  raise.
- `proto_enum.dfy` models the `ModelType` enum as its list of declared (label, number)
  pairs. `Name` is `ModelType.Name`. `Value` is the label-to-number conversion that the
  message constructor performs when an enum field is given a label. Both fail on an unknown
  input. When no two declared values share a label or a number, they are inverse to each
  other.
- `messages.dfy` models the two message shapes with field presence made explicit. It also
  models `stringValue` and the decoders' reading of `model_desc`. Reading an unset
  sub-message field yields the default instance, not None, so the model reads it with
  `GetOr(default)`.
- `registered_model_detail.dfy` holds the entity and the mappers, with the lemmas that
  connect them: both round trips, None propagation, presence of the description, rejection
  of unknown enum numbers, and agreement between the two decoders.
- `property_listing.dfy` models `_properties()` as `sorted(own + base)`. It proves that the
  result is sorted, is a permutation of the concatenation, and is the only sorted
  permutation. It also proves that duplicates are kept.

The version entity is a collaborator. Its code is not part of this model. Its entity type is
the type parameter `V` and its message type is `W`. A `VersionMapper` supplies its
`from_proto`, its `to_meta_proto` and the default instance of its message. Either of the two
mappers may raise, and the detail mappers pass on what it raises. Lemmas that need
facts about the collaborator take those facts as hypotheses. One example: the version mapper
inverts its own serialiser.

## Model

| member | source | states |
|---|---|---|
| `RegisteredModelDetails.New` | flink-ai-flow/ai_flow/model_center/entity/registered_model_detail.py:33-38 | the constructor stores the four fields as given; description and version default to None; no check is made that the model type is a declared label |
| `RegisteredModelDetails.FromProto` | flink-ai-flow/ai_flow/model_center/entity/registered_model_detail.py:61-67 | None gives None; the call fails, with UnknownEnumValue, exactly when the type number has no label; on success the name is copied, the type is the label of the number, the description is None exactly when `model_desc` is unset and otherwise its wrapped value, and the version is None |
| `RegisteredModelDetails.FromDetailProto` | flink-ai-flow/ai_flow/model_center/entity/registered_model_detail.py:69-78 | None gives None; when the type number of the meta sub-message (as read) has no label it fails with UnknownEnumValue, before the version is decoded; otherwise it fails exactly when the version mapper raises on the `model_version` field as read, with that error; on success the version is the version mapper's result |
| `RegisteredModelDetails.ToMetaProto` | flink-ai-flow/ai_flow/model_center/entity/registered_model_detail.py:80-82 | succeeds exactly when the model type is a declared label, and otherwise fails with UnknownEnumName; the name is copied, the type number is the one declared with the label, and `model_desc` is set exactly when the description is not None, in which case it wraps that description |
| `RegisteredModelDetails.ToDetailProto` | flink-ai-flow/ai_flow/model_center/entity/registered_model_detail.py:84-94 | an undeclared model type fails with the same error as `ToMetaProto`, before the version is serialised; otherwise it fails exactly when the version mapper raises on the entity's version, with that error; on success `registered_model` is the message `ToMetaProto` gives, and `model_version` is unset exactly when the entity has no version and otherwise is the mapper's serialisation of that version |
| `RegisteredModelDetails.MetaRoundTrip` | flink-ai-flow/ai_flow/model_center/entity/registered_model_detail.py:80-82 | for a declared model type, decoding with `from_proto` what `to_meta_proto` produced gives back name, type and description, with version None |
| `RegisteredModelDetails.MetaMessageRoundTrip` | flink-ai-flow/ai_flow/model_center/entity/registered_model_detail.py:62-67 | a meta message whose type number is declared is decoded and re-encoded to itself, description presence included |
| `RegisteredModelDetails.DetailRoundTrip` | flink-ai-flow/ai_flow/model_center/entity/registered_model_detail.py:70-94 | when the version mapper serialises the entity's version without raising and decodes the result back to it, or decodes the default version message to None when there is no version, the detail encoding decodes to the entity itself |
| `RegisteredModelDetails.UnsetVersionDecodesDefault` | flink-ai-flow/ai_flow/model_center/entity/registered_model_detail.py:75-78 | a detail message without a version sub-message decodes to whatever the version mapper makes of the default version message, raising exactly when the mapper raises on it; the version is not necessarily None |
| `RegisteredModelDetails.DetailDecodeAgreesWithMeta` | flink-ai-flow/ai_flow/model_center/entity/registered_model_detail.py:74-78 | when the meta decoder fails on the meta sub-message, the detail decoder fails with the same enum error; when the detail decoder succeeds, so does the meta decoder, with the same name, type and description |
| `RegisteredModelDetails.UnknownNumberRejected` | flink-ai-flow/ai_flow/model_center/entity/registered_model_detail.py:66-76 | a type number with no declared label makes both decoders fail with UnknownEnumValue of that number |
| `RegisteredModelDetails.EmptyDescriptionIsKept` | flink-ai-flow/ai_flow/model_center/entity/registered_model_detail.py:80-82 | an empty description and a missing one encode to different messages and decode back to `""` and None respectively |
| `Messages.UnwrapDesc` | flink-ai-flow/ai_flow/model_center/entity/registered_model_detail.py:67 | the decoded description is None exactly when `model_desc` is unset |
| `Messages.WrapString` | flink-ai-flow/ai_flow/model_center/entity/registered_model_detail.py:82 | `stringValue` (as assumed) leaves the field unset exactly for None, and otherwise wraps the string itself, `""` included |
| `Messages.RegisteredModelDetailMessage.RegisteredModel` | flink-ai-flow/ai_flow/model_center/entity/registered_model_detail.py:74 | reading `registered_model` gives the sub-message when it is set, and otherwise the default instance: empty name, type number 0, `model_desc` unset |
| `Messages.RegisteredModelDetailMessage.ModelVersion` | flink-ai-flow/ai_flow/model_center/entity/registered_model_detail.py:75 | reading `model_version` gives the sub-message when it is set, and otherwise the default instance of the version message |
| `Messages.DescRoundTrip` | flink-ai-flow/ai_flow/model_center/entity/registered_model_detail.py:82 | wrapping a description with `stringValue` and reading it back gives the description, None and `""` included |
| `Messages.WrapUnwrap` | flink-ai-flow/ai_flow/model_center/entity/registered_model_detail.py:77 | reading `model_desc` and wrapping the result again gives the field as it was, set or unset |
| `ProtoEnum.Name` | flink-ai-flow/ai_flow/model_center/entity/registered_model_detail.py:66 | `ModelType.Name` succeeds exactly when some declared value carries the number, and then returns a label declared with it; otherwise it fails with UnknownEnumValue |
| `ProtoEnum.Value` | flink-ai-flow/ai_flow/model_center/entity/registered_model_detail.py:81 | assigning a label to the enum field succeeds exactly when the label is declared, and then stores a number declared with it; otherwise it fails with UnknownEnumName |
| `ProtoEnum.NameOfValue` | flink-ai-flow/ai_flow/model_center/entity/registered_model_detail.py:81 | with no aliases, label to number to label gives the label back |
| `ProtoEnum.ValueOfName` | flink-ai-flow/ai_flow/model_center/entity/registered_model_detail.py:76 | with no aliases, number to label to number gives the number back |
| `PropertyListing.LessEq` | flink-ai-flow/ai_flow/model_center/entity/registered_model_detail.py:58 | Python's `<=` on strings, which `sorted` uses: a string is at most every string it is a prefix of, and above every proper prefix of it |
| `PropertyListing.FirstDifferenceDecides` | flink-ai-flow/ai_flow/model_center/entity/registered_model_detail.py:58 | when two strings agree up to a position and differ there, the order of the characters at that position is the order of the strings |
| `PropertyListing.Sort` | flink-ai-flow/ai_flow/model_center/entity/registered_model_detail.py:58 | `sorted` on strings returns a sorted permutation of its input |
| `PropertyListing.SortedPermutationUnique` | flink-ai-flow/ai_flow/model_center/entity/registered_model_detail.py:58 | two sorted permutations of the same strings are equal, so the result of `sorted` does not depend on the algorithm |
| `PropertyListing.Properties` | flink-ai-flow/ai_flow/model_center/entity/registered_model_detail.py:55-58 | `_properties()` is sorted, is a permutation of the own names followed by the base class's, and is as long as both lists together |
| `PropertyListing.PropertiesIsTheSortedConcatenation` | flink-ai-flow/ai_flow/model_center/entity/registered_model_detail.py:58 | every sorted permutation of the concatenated lists equals `_properties()` |
| `PropertyListing.SharedNameListedTwice` | flink-ai-flow/ai_flow/model_center/entity/registered_model_detail.py:58 | a name that both the entity and its base class declare appears at least twice; the listing does not deduplicate |

## Left out

- `ModelVersionDetail`'s own mappers are not part of this model. They are the
  `VersionMapper` parameter, and any fact about them is a lemma hypothesis. Either mapper may
  raise; what it raises is the type parameter `E`, and the detail mappers pass it on as a
  `VersionFailure`.
- `stringValue` is not part of this model. `Messages.WrapString` assumes that it leaves the
  field unset for None and wraps every other string, including `""`.
- The protobuf runtime is not modelled. A message is a value with explicit presence, and
  reading an unset sub-message gives a fixed default instance. Serialisation to bytes is not
  modelled.
- Enum aliases (two labels for one number) are left out. The round-trip lemmas require
  distinct labels and distinct numbers. With aliases, `Name` returns the first declared
  label, and the protobuf runtime might choose a different one.
- The declared values of `ModelType` are not part of this model. Every operation takes the
  enum's list of values as a parameter.
- `RegisteredModel`, the base class, is not part of this model. Neither is the
  reflection-based `_get_properties_helper`. The model takes the two lists of names as
  inputs, and it takes the entity's name as a plain string.
- The property getters at lines 40-53 only return fields. The datatype's field accessors
  stand for them.
- `cls(...)` in the class methods builds an instance of whatever subclass the method is
  called on. The model always builds `RegisteredModelDetail`.
- A model type given to the constructor as an enum number rather than a label is not
  modelled. The entity's model type is a string.
- `_properties` does not deduplicate (line 58): a name declared by both classes is listed
  twice, and the model keeps both.
- Backend stores, the REST layer and the transport of messages are I/O outside this entity.
