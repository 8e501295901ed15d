/** Value objects of the domain seedwork: immutable field holders compared by
    their field values, with a canonical string form; and `UniqueEntityId`,
    the value object that holds an entity's UUID. */
module ValueObjects {
  import opened Results
  import Json
  import Uuids

  /** A concrete value-object dataclass: its name and its field names in
      declaration order. */
  datatype Schema = Schema(className: string, fieldNames: seq<string>)

  /** An instance: its class and one (string) value per declared field. */
  datatype ValueObject = ValueObject(schema: Schema, values: seq<string>)

  /** One value per field, and no field declared twice (a dataclass
      guarantees both). */
  predicate WellFormed(vo: ValueObject) {
    && |vo.values| == |vo.schema.fieldNames|
    && forall i, j :: 0 <= i < j < |vo.schema.fieldNames| ==> vo.schema.fieldNames[i] != vo.schema.fieldNames[j]
  }

  /** `{field_name: getattr(self, field_name) for field_name in field_names}`. */
  function Members(vo: ValueObject): (ms: seq<Json.Member>)
    requires WellFormed(vo)
    ensures |ms| == |vo.values|
    ensures forall i :: 0 <= i < |ms| ==> ms[i] == (vo.schema.fieldNames[i], vo.values[i])
  {
    seq(|vo.values|, i requires 0 <= i < |vo.values| => (vo.schema.fieldNames[i], vo.values[i]))
  }

  /** The instance's text is rendered exactly by the model: a lone field is
      written as is, several go through `json.dumps` and must need no escaping. */
  predicate Printable(vo: ValueObject)
    requires WellFormed(vo)
  {
    |vo.values| == 1 || Json.AllPlain(Members(vo))
  }

  /** `ValueObject.__str__`: the bare value of a single field, otherwise a JSON
      object of all fields in declaration order. */
  function ToString(vo: ValueObject): (s: string)
    requires WellFormed(vo) && Printable(vo)
    ensures |vo.values| == 1 ==> s == vo.values[0]
    ensures |vo.values| != 1 ==> Json.ParseObject(s) == Some(Members(vo))
  {
    if |vo.values| == 1 then vo.values[0]
    else
      Json.DumpObjectRoundTrip(Members(vo));
      Json.DumpObject(Members(vo))
  }

  /** The dataclass `__eq__`: instances of the same class with equal field
      values, field by field. It is structural: equality of the whole value. */
  predicate Equal(a: ValueObject, b: ValueObject): (equal: bool)
    ensures equal <==> a == b
  {
    a.schema == b.schema && a.values == b.values
  }

  /** Within one class, the string form tells instances apart exactly as
      equality does. */
  lemma ToStringCharacterisesEquality(a: ValueObject, b: ValueObject)
    requires WellFormed(a) && Printable(a) && WellFormed(b) && Printable(b)
    requires a.schema == b.schema
    ensures ToString(a) == ToString(b) <==> Equal(a, b)
  {
    if ToString(a) == ToString(b) {
      if |a.values| == 1 {
        assert a.values == [a.values[0]] && b.values == [b.values[0]];
      } else {
        assert Members(a) == Members(b);
        forall i | 0 <= i < |a.values| ensures a.values[i] == b.values[i] {
          assert Members(a)[i].1 == Members(b)[i].1;
        }
      }
    }
  }

  const StubMembers: seq<Json.Member> := [("attribute_1", "value1"), ("attribute_2", "value2")]

  lemma StubFirstMemberText()
    ensures Json.DumpMember(StubMembers[0]) == "\"attribute_1\": \"value1\""
  {
  }

  lemma StubSecondMemberText()
    ensures Json.DumpMember(StubMembers[1]) == "\"attribute_2\": \"value2\""
  {
  }

  lemma StubObjectHalves()
    ensures "{\"attribute_1\": \"value1\", \"attribute_2\": \"value2\"}"
         == "{\"attribute_1\": \"value1\", " + "\"attribute_2\": \"value2\"}"
    ensures "{\"attribute_1\": \"value1\", " == "{" + "\"attribute_1\": \"value1\"" + ", "
    ensures "\"attribute_2\": \"value2\"}" == "\"attribute_2\": \"value2\"" + "}"
  {
  }

  lemma StubMembersText()
    ensures Json.DumpObject(StubMembers) == "{\"attribute_1\": \"value1\", \"attribute_2\": \"value2\"}"
  {
    var first, second := Json.DumpMember(StubMembers[0]), Json.DumpMember(StubMembers[1]);
    assert StubMembers[1..] == [StubMembers[1]];
    assert Json.DumpObject(StubMembers) == ("{" + first + ", ") + (second + "}");
    StubFirstMemberText();
    StubSecondMemberText();
    StubObjectHalves();
  }

  /** The unit test's stubs: one field renders its value, two render JSON. */
  lemma ToStringExamples()
    ensures ToString(ValueObject(Schema("StubOneAttribute", ["attribute_1"]), ["value1"])) == "value1"
    ensures ToString(ValueObject(Schema("StubTwoAttributes", ["attribute_1", "attribute_2"]), ["value1", "value2"]))
         == "{\"attribute_1\": \"value1\", \"attribute_2\": \"value2\"}"
  {
    var two := ValueObject(Schema("StubTwoAttributes", ["attribute_1", "attribute_2"]), ["value1", "value2"]);
    assert Members(two) == StubMembers;
    StubMembersText();
  }

  // --- UniqueEntityId ------------------------------------------------------

  const IdSchema := Schema("UniqueEntityId", ["id"])

  /** The message `InvalidUuidException` carries. */
  const InvalidUuidMessage := "ID must be a valid UUID"

  datatype InvalidUuidException = InvalidUuidException(message: string)

  /** What the constructor may be given: text, or a `uuid.UUID` object. */
  datatype IdArgument = Text(text: string) | UuidObject(uuid: Uuids.Uuid)

  /** The id `__post_init__` stores: a `uuid.UUID` becomes its canonical text,
      text is kept as it is. */
  function NormalisedId(arg: IdArgument): (id: string)
    ensures arg.Text? ==> id == arg.text
    ensures arg.UuidObject? ==> Uuids.IsValid(id) && Uuids.Parse(id) == Some(arg.uuid)
  {
    match arg
    case Text(text) => text
    case UuidObject(u) =>
      Uuids.FormatRoundTrip(u);
      Uuids.Format(u)
  }

  class UniqueEntityId {
    /** Written once, during construction, and never again. */
    const id: string

    /** The dataclass `__init__` followed by `__post_init__`'s normalisation. */
    constructor (arg: IdArgument)
      ensures id == NormalisedId(arg)
    {
      id := NormalisedId(arg);
    }

    /** `__validate`: one attempt to read `id` as a UUID. */
    function Validate(): (failure: Option<InvalidUuidException>)
      ensures failure.None? <==> Uuids.IsValid(id)
      ensures failure.Some? ==> failure.value.message == InvalidUuidMessage
    {
      match Uuids.Parse(id)
      case Some(_) => None
      case None => Some(InvalidUuidException(InvalidUuidMessage))
    }

    /** The instance seen as a value object with its one field `id`. */
    function AsValueObject(): (vo: ValueObject)
      ensures WellFormed(vo) && Printable(vo) && vo.schema == IdSchema
    {
      ValueObject(IdSchema, [id])
    }

    /** `__str__`: the id itself, which is also what the inherited one-field
        rule of `ValueObject.__str__` gives. */
    function Str(): (s: string)
      ensures s == id
      ensures s == ToString(AsValueObject())
    {
      id
    }

    /** The dataclass `__eq__`: two ids are equal when their texts are,
        whichever objects hold them. */
    predicate Equals(other: UniqueEntityId)
      ensures Equals(other) <==> Equal(AsValueObject(), other.AsValueObject())
    {
      id == other.id
    }
  }

  /** `UniqueEntityId(arg)`. An omitted argument is replaced by the default
      factory's `str(uuid.uuid4())`, modelled as an arbitrary 128-bit value;
      the object normalises its argument, validates it once, and raises
      `InvalidUuidException` unless it reads as a UUID. */
  method Create(arg: Option<IdArgument>) returns (r: Result<UniqueEntityId, InvalidUuidException>)
    ensures arg.Some? && arg.value.Text? ==> (r.Ok? <==> Uuids.IsValid(arg.value.text))
    ensures arg.None? || arg.value.UuidObject? ==> r.Ok?
    ensures r.Ok? ==> fresh(r.value) && Uuids.IsValid(r.value.id)
    ensures r.Ok? && arg.Some? ==> r.value.id == NormalisedId(arg.value)
    ensures r.Ok? && arg.Some? && arg.value.UuidObject? ==> r.value.id == Uuids.Format(arg.value.uuid)
    ensures r.Err? ==> r.error == InvalidUuidException(InvalidUuidMessage)
    ensures arg.None? ==> r.Ok? && exists u: Uuids.Uuid :: r.value.id == Uuids.Format(u)
  {
    var given: IdArgument;
    if arg.Some? {
      given := arg.value;
    } else {
      var generated: Uuids.Uuid :| true;
      Uuids.FormatRoundTrip(generated);
      given := Text(Uuids.Format(generated));
    }
    ghost var generatedText := NormalisedId(given);
    var candidate := new UniqueEntityId(given);
    var failure := candidate.Validate();
    if failure.Some? {
      r := Err(failure.value);
    } else {
      r := Ok(candidate);
      assert arg.None? ==> exists u: Uuids.Uuid :: generatedText == Uuids.Format(u);
    }
  }

  /** An id made without an argument is valid, and prints as its id. */
  method CreateDefault() returns (generated: UniqueEntityId)
    ensures Uuids.IsValid(generated.id)
    ensures generated.Str() == generated.id
  {
    var r := Create(None);
    generated := r.value;
  }

  /** A generated id, rebuilt from its string form, gives an equal valid id. */
  method RebuildFromString() returns (first: UniqueEntityId, second: UniqueEntityId)
    ensures Uuids.IsValid(first.id) && Uuids.IsValid(second.id)
    ensures first.Equals(second) && first.Str() == second.Str()
  {
    var r := Create(None);
    first := r.value;
    r := Create(Some(Text(first.Str())));
    second := r.value;
  }

  /** Text that is not a UUID is refused with the exception's message. */
  method CreateFromFakeId() returns (r: Result<UniqueEntityId, InvalidUuidException>)
    ensures r == Err(InvalidUuidException(InvalidUuidMessage))
  {
    Uuids.FakeIdIsInvalid();
    r := Create(Some(Text("Fake ID")));
  }

  /** The tested id is kept as given as text, and a `uuid.UUID` of it is
      normalised to that same text. */
  method CreateFromTestId() returns (fromText: UniqueEntityId, fromUuid: UniqueEntityId)
    ensures fromText.id == "08976216-4179-40bd-ba77-d357c95b9bba"
    ensures fromUuid.id == "08976216-4179-40bd-ba77-d357c95b9bba"
    ensures fromText.Equals(fromUuid)
  {
    Uuids.TestIdRoundTrip();
    var r := Create(Some(Text("08976216-4179-40bd-ba77-d357c95b9bba")));
    fromText := r.value;
    Uuids.TestIdRoundTrip();
    var u := Uuids.Parse("08976216-4179-40bd-ba77-d357c95b9bba").value;
    r := Create(Some(UuidObject(u)));
    fromUuid := r.value;
  }
}
