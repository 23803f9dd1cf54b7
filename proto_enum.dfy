/** The `ModelType` enum of the registry's Protocol Buffers schema, seen through the two
    lookups the entity uses: `ModelType.Name(number)` and the label-to-number conversion the
    message constructor performs when an enum field is given a label. The enum's declared
    values are not part of this model, so every operation takes the descriptor (the list of
    declared values) as a parameter. */
module ProtoEnum {
  import opened Wrappers

  /** One declared value of an enum: its label and its number. */
  datatype EnumValue = EnumValue(name: string, number: int)

  /** The declared values of an enum type, in declaration order. */
  type EnumDescriptor = seq<EnumValue>

  /** The two ways an enum conversion fails (both are a ValueError in Python). */
  datatype EnumError =
    | UnknownEnumValue(number: int)  // a number that no declared value carries
    | UnknownEnumName(name: string)  // a label that no declared value carries

  /** No two declared values share a label or a number (no aliases). */
  ghost predicate WellFormed(d: EnumDescriptor) {
    forall i, j :: 0 <= i < j < |d| ==> d[i].name != d[j].name && d[i].number != d[j].number
  }

  /** `ModelType.Name(number)`: the label declared with `number`, or UnknownEnumValue. */
  function Name(d: EnumDescriptor, number: int): (r: Result<string, EnumError>)
    ensures r.Ok? <==> exists i :: 0 <= i < |d| && d[i].number == number
    ensures r.Ok? ==> exists i :: 0 <= i < |d| && d[i] == EnumValue(r.value, number)
    ensures r.Err? ==> r.error == UnknownEnumValue(number)
  {
    if |d| == 0 then Err(UnknownEnumValue(number))
    else if d[0].number == number then Ok(d[0].name)
    else
      var r := Name(d[1..], number);
      assert forall i :: 1 <= i < |d| ==> d[i] == d[1..][i - 1];
      r
  }

  /** The number declared with `name` (what assigning a label to an enum field stores),
      or UnknownEnumName. */
  function Value(d: EnumDescriptor, name: string): (r: Result<int, EnumError>)
    ensures r.Ok? <==> exists i :: 0 <= i < |d| && d[i].name == name
    ensures r.Ok? ==> exists i :: 0 <= i < |d| && d[i] == EnumValue(name, r.value)
    ensures r.Err? ==> r.error == UnknownEnumName(name)
  {
    if |d| == 0 then Err(UnknownEnumName(name))
    else if d[0].name == name then Ok(d[0].number)
    else
      var r := Value(d[1..], name);
      assert forall i :: 1 <= i < |d| ==> d[i] == d[1..][i - 1];
      r
  }

  /** In a well-formed descriptor, the label found for a number is the one declared with it. */
  lemma NameIsDeclared(d: EnumDescriptor, i: nat)
    requires WellFormed(d) && i < |d|
    ensures Name(d, d[i].number) == Ok(d[i].name)
  {
    var r := Name(d, d[i].number);
    var j :| 0 <= j < |d| && d[j] == EnumValue(r.value, d[i].number);
    assert !(i < j) && !(j < i);
  }

  /** In a well-formed descriptor, the number found for a label is the one declared with it. */
  lemma ValueIsDeclared(d: EnumDescriptor, i: nat)
    requires WellFormed(d) && i < |d|
    ensures Value(d, d[i].name) == Ok(d[i].number)
  {
    var r := Value(d, d[i].name);
    var j :| 0 <= j < |d| && d[j] == EnumValue(d[i].name, r.value);
    assert !(i < j) && !(j < i);
  }

  /** Label to number and back gives the label again. */
  lemma NameOfValue(d: EnumDescriptor, name: string)
    requires WellFormed(d) && Value(d, name).Ok?
    ensures Name(d, Value(d, name).value) == Ok(name)
  {
    var i :| 0 <= i < |d| && d[i].name == name;
    ValueIsDeclared(d, i);
    NameIsDeclared(d, i);
  }

  /** Number to label and back gives the number again. */
  lemma ValueOfName(d: EnumDescriptor, number: int)
    requires WellFormed(d) && Name(d, number).Ok?
    ensures Value(d, Name(d, number).value) == Ok(number)
  {
    var i :| 0 <= i < |d| && d[i].number == number;
    NameIsDeclared(d, i);
    ValueIsDeclared(d, i);
  }
}
