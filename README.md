# Domain seedwork: validation rules, value objects and entity ids

This is a Dafny model of two pieces of the domain "seedwork" layer of a small
catalogue service, with proofs about them.

**The rule chain `ValidatorRules`** (`validators.dfy`, module `Validators`)
- A frozen pair of an untyped value and an attribute name, with four checks: `required`, `string`, `max_length(n)` and `boolean`.
- Each check either returns the same pair or raises `ValidationException` with a message naming the attribute.
- The Python value is the datatype `Value`: `None`, a str, a bool, an int, or a dict. A dict is seen only through its number of entries.
  - The four rules treat all unsized values other than `None`, str and bool alike, so `VInt` stands for every one of them: ints, floats and other objects without a length.
  - Likewise `VDict` stands for every sized value that is not a str: dicts, lists, tuples and so on.
  - Objects with a custom `__eq__` or `__len__` are not modelled.
- A check's outcome is a `Result`. Its error is either `ValidationException(message)`, or `TypeError` where Python's `len()` raises on a bool or an int.
- A call chain `rules.r1().r2()...` is `CheckAll` over a sequence of `Rule`s.
- The messages are decodable: `ParseError` reads a message back to the rule and the attribute that produced it. It is exact: it accepts a message iff the message is the one that rule raises for that attribute, so a zero-padded limit or `-0` is refused. This is how the rule contracts fix the text they raise, for every attribute and every limit.
- **The boolean message:** `boolean()` raises `The "<attribute>" must be a boolean`, with no final period. The unit test and the category integration test both expect a final period. The model follows the code, and `BooleanMessageLacksTestedPeriod` proves that the tested text is not what the code raises.

**Value objects** (`value_objects.dfy`, module `ValueObjects`)
- A frozen dataclass instance is a `ValueObject`: a `Schema` (the class name and its field names in declaration order) and one string value per field.
- `ToString` is `ValueObject.__str__`:
  - with one field, it is the bare value;
  - otherwise, it is `json.dumps` of the fields in declaration order, modelled in `json.dfy` (module `Json`) together with a reader for that output.
- `Equal` is the dataclass `__eq__`.

**`UniqueEntityId`**
- A class whose `id` is a `const`, assigned once by the constructor: the frozen dataclass forbids any later assignment.
- The constructor performs `__post_init__`'s normalisation: a `uuid.UUID` argument becomes its canonical text, and text is kept as it is.
- `Validate` is `__validate`. `Create` is the whole construction:
  - it fills in the default id;
  - it builds the object;
  - it validates once, and returns `InvalidUuidException` unless the id reads as a UUID.

**The `uuid` module's reading and writing** (`uuids.dfy`, module `Uuids`)
- A UUID is a 128-bit number.
- `Format` is `str(uuid)`: 8-4-4-4-12 lowercase hex.
- `IsValid` and `Parse` are the `uuid.UUID(text)` constructor. It removes `urn:` and `uuid:`, strips enclosing braces, removes hyphens, and demands exactly 32 hex digits.

**Shared modules**
- `decimal.dfy` (module `Decimal`): `str()` of the integer limit inside the max-length message, and its reader.
- `results.dfy` (module `Results`): `Option` and `Result`.

## Model

| member | source | states |
|---|---|---|
| Validators.ValidatorRules.Values | src/__seedwork/domain/validators.py:12-14 | the chain holds exactly the given value and attribute |
| Validators.Len | src/__seedwork/domain/validators.py:28 | `len()` is defined exactly on strings and dicts |
| Validators.ValidatorRules.Required | src/__seedwork/domain/validators.py:16-19 | fails iff the value is `None` or `""`; on success returns the chain unchanged; on failure raises a `ValidationException` whose message decodes to (required, attribute) |
| Validators.ValidatorRules.String | src/__seedwork/domain/validators.py:21-25 | fails iff the value is not `None` and not a str; success returns the chain unchanged; the failure message decodes to (string, attribute) |
| Validators.ValidatorRules.MaxLength | src/__seedwork/domain/validators.py:27-31 | succeeds iff the value is `None` or has a length of at most the limit; raises `TypeError` exactly on bools and ints; a `ValidationException` message decodes to (max_length of that limit, attribute), which by `ParseErrorCharacterises` means it is exactly `The "<attribute>" must be less than <limit> characters.` |
| Validators.ValidatorRules.Boolean | src/__seedwork/domain/validators.py:33-37 | succeeds iff the value is `None`, `True` or `False`, by identity rather than truthiness; the failure message decodes to (boolean, attribute) |
| Validators.ErrorMessage | src/__seedwork/domain/validators.py:18-36 | the four f-string messages; each starts with `The "` followed by the attribute |
| Validators.ValidatorRules.Check | src/__seedwork/domain/validators.py:19 | every rule that succeeds hands back the same chain |
| Validators.ValidatorRules.CheckAll | src/__seedwork/domain/validators.py:16-37 | a call chain `r1().r2()...` that succeeds hands back the same chain |
| Validators.ChainSucceedsIffEachRule | src/__seedwork/domain/validators.py:16-37 | a chain of calls succeeds iff every rule succeeds on its own on the original pair, and then it returns that pair |
| Validators.FirstFailureWins | src/__seedwork/domain/validators.py:16-37 | when rule k is the first to fail, the chain raises exactly rule k's error |
| Validators.ErrorMessageRoundTrip | src/__seedwork/domain/validators.py:18-36 | every message a rule raises decodes back to that rule, its limit and the attribute |
| Validators.ErrorMessageInjective | src/__seedwork/domain/validators.py:18-36 | different (rule, attribute) pairs never raise the same message |
| Validators.ParseErrorExact | src/__seedwork/domain/validators.py:18-36 | every text the reader accepts is the message of the failure it returns |
| Validators.ParseErrorCharacterises | src/__seedwork/domain/validators.py:18-36 | a message decodes to a failure iff it is exactly that failure's message |
| Validators.RaisedMessageIsExact | src/__seedwork/domain/validators.py:18-36 | every `ValidationException` a rule raises carries exactly that rule's message for the chain's attribute and, for `max_length`, its limit |
| Validators.ValuesExample | src/__seedwork/tests/unit/domain/test_unit_validators.py:11-16 | `values('some value', 'attribute')` holds both |
| Validators.RequiredExamples | src/__seedwork/tests/unit/domain/test_unit_validators.py:18-48 | `None` and `""` raise `The "attribute" is required.`; `'test'`, `5`, `0` and `False` pass |
| Validators.StringExamples | src/__seedwork/tests/unit/domain/test_unit_validators.py:50-80 | `5`, `True` and `{}` raise `The "attribute" must be a string.`; `None`, `""` and `'some value'` pass |
| Validators.MaxLengthExamples | src/__seedwork/tests/unit/domain/test_unit_validators.py:82-110 | five characters against 4 raise `... must be less than 4 characters.`; against 5 they pass, and `None` passes |
| Validators.BooleanExamples | src/__seedwork/tests/unit/domain/test_unit_validators.py:112-141 | `""`, `{}` and `5` raise the boolean message; `True`, `False` and `None` pass |
| Validators.BooleanMessageLacksTestedPeriod | src/__seedwork/domain/validators.py:36 | the raised boolean message is not the period-terminated text the tests expect |
| Validators.NameRulesAccept | src/category/tests/integrations/domain/test_int_entities.py:9-32 | a string name passes `required().string().max_length(255)` iff it has 1 to 255 characters |
| Validators.NameRulesExamples | src/category/tests/integrations/domain/test_int_entities.py:9-26 | `None` and `""` raise `The "name" is required.`; `5` raises `The "name" must be a string.` |
| Validators.NameRulesTooLong | src/category/tests/integrations/domain/test_int_entities.py:28-32 | a 256-character name raises `The "name" must be less than 255 characters.` |
| Decimal.IntToString | src/__seedwork/domain/validators.py:30 | `str(n)` is non-empty and starts with a minus sign iff n is negative |
| Decimal.IntToStringRoundTrip | src/__seedwork/domain/validators.py:30 | the limit written into the message reads back as the same integer |
| Decimal.IntToStringInjective | src/__seedwork/domain/validators.py:30 | different limits are written differently |
| Decimal.NatToStringParseNat | src/__seedwork/domain/validators.py:30 | digits without a leading zero are exactly what `str()` writes for their value |
| Json.DumpObject | src/__seedwork/domain/value_objects.py:16 | `json.dumps` of a flat dict is enclosed in braces |
| Json.DumpObjectRoundTrip | src/__seedwork/domain/value_objects.py:16 | `json.dumps` of a flat str-to-str dict reads back as the same members in the same order |
| ValueObjects.Members | src/__seedwork/domain/value_objects.py:13-16 | one (field name, value) pair per field, in declaration order |
| ValueObjects.ToString | src/__seedwork/domain/value_objects.py:12-16 | one field: the bare value; any other number: text that reads back as the JSON object of the members in declaration order |
| ValueObjects.Equal | src/__seedwork/domain/value_objects.py:9 | dataclass equality (same class, same field values) is structural: it holds iff the two values are identical |
| ValueObjects.ToStringCharacterisesEquality | src/__seedwork/domain/value_objects.py:12-16 | within one class, two instances have the same string form iff they are equal |
| ValueObjects.StubMembersText | src/__seedwork/tests/unit/domain/test_unit_value_objects.py:43-46 | the two stub members dump as `{"attribute_1": "value1", "attribute_2": "value2"}` |
| ValueObjects.ToStringExamples | src/__seedwork/tests/unit/domain/test_unit_value_objects.py:39-46 | the one-attribute stub prints `value1`; the two-attribute stub prints that JSON text |
| Uuids.HexPart | src/__seedwork/domain/value_objects.py:33 | what `uuid.UUID(text)` keeps after removing `urn:`, `uuid:`, enclosing braces and hyphens is never longer than the text |
| Uuids.IsValid | src/__seedwork/domain/value_objects.py:33 | `uuid.UUID(text)` accepts the text only if it has at least 32 characters |
| Uuids.Parse | src/__seedwork/domain/value_objects.py:33 | `uuid.UUID(text)` succeeds iff the text is valid |
| Uuids.Format | src/__seedwork/domain/value_objects.py:26 | `str(uuid)` has 36 characters; its exact shape is `FormatIsLowerCanonical` |
| Uuids.FormatIsLowerCanonical | src/__seedwork/domain/value_objects.py:26 | `str(uuid)` is 32 lowercase hex digits grouped 8-4-4-4-12 by hyphens |
| Uuids.FormatRoundTrip | src/__seedwork/domain/value_objects.py:21-33 | the canonical text of any 128-bit value is valid and parses back to that value |
| Uuids.FormatInjective | src/__seedwork/domain/value_objects.py:26 | different UUIDs have different canonical texts |
| Uuids.CanonicalTextRoundTrip | src/__seedwork/domain/value_objects.py:26-33 | lowercase canonical text parses, and formatting the result gives the same text back |
| Uuids.CanonicalShapeIsValid | src/__seedwork/domain/value_objects.py:33 | any 8-4-4-4-12 hyphenated hex text, in either case, is accepted |
| Uuids.ShortTextIsInvalid | src/__seedwork/domain/value_objects.py:33-35 | text shorter than 32 characters is always refused |
| Uuids.FromHexToHex | src/__seedwork/domain/value_objects.py:33 | reading the zero-padded hex digits of n gives n back |
| Uuids.ToHexFromHex | src/__seedwork/domain/value_objects.py:33 | writing the value of lowercase hex digits at their width gives the same digits |
| Uuids.TestIdRoundTrip | src/__seedwork/tests/unit/domain/test_unit_value_objects.py:67-78 | `08976216-4179-40bd-ba77-d357c95b9bba` is valid, and is the canonical text of its own value |
| Uuids.FakeIdIsInvalid | src/__seedwork/tests/unit/domain/test_unit_value_objects.py:62 | `Fake ID` is not a UUID |
| ValueObjects.NormalisedId | src/__seedwork/domain/value_objects.py:26 | text is kept as given; a UUID object becomes valid text that parses back to it |
| ValueObjects.UniqueEntityId.constructor | src/__seedwork/domain/value_objects.py:25-27 | the stored id is the normalised argument |
| ValueObjects.UniqueEntityId.Validate | src/__seedwork/domain/value_objects.py:31-35 | reports no failure iff the id reads as a UUID, and otherwise the message `ID must be a valid UUID` |
| ValueObjects.UniqueEntityId.AsValueObject | src/__seedwork/domain/value_objects.py:18-23 | the id object is a well-formed one-field value object of class `UniqueEntityId` |
| ValueObjects.UniqueEntityId.Str | src/__seedwork/domain/value_objects.py:37-38 | the string form is the id, and agrees with the inherited one-field rule |
| ValueObjects.UniqueEntityId.Equals | src/__seedwork/domain/value_objects.py:18 | two ids are equal iff their value objects are equal |
| ValueObjects.Create | src/__seedwork/domain/value_objects.py:21-35 | text succeeds iff it is a valid UUID and is stored unchanged; no argument or a UUID object always succeeds; with no argument the id is the canonical text of some UUID; a UUID object is stored as its canonical text; every created id is valid and fresh; a failure is exactly `InvalidUuidException('ID must be a valid UUID')` |
| ValueObjects.CreateDefault | src/__seedwork/tests/unit/domain/test_unit_value_objects.py:92-110 | an id made without an argument is valid and prints as its id |
| ValueObjects.RebuildFromString | src/__seedwork/domain/value_objects.py:21-38 | a generated id is valid, and building a new id from its string form gives an equal id with the same string (a consequence of the source; no test does this) |
| ValueObjects.CreateFromFakeId | src/__seedwork/tests/unit/domain/test_unit_value_objects.py:54-65 | `UniqueEntityId('Fake ID')` fails with `ID must be a valid UUID` |
| ValueObjects.CreateFromTestId | src/__seedwork/tests/unit/domain/test_unit_value_objects.py:67-90 | the tested id given as text is kept; given as a UUID object it is normalised to the same text; the two are equal |

## Left out

- The randomness of `uuid.uuid4()`: the default id is an arbitrary 128-bit value, formatted canonically. The version and variant bits it sets are not modelled.
- Uuids.IsValid: `int(text, 16)` also accepts surrounding whitespace, underscores between digits, a sign, a `0x` prefix and non-ASCII Unicode decimal digits (for example fullwidth digits). These are not modelled, so a few such 32-character texts that Python accepts are refused by the model.
- ValueObjects.Create: arguments that are neither text nor `uuid.UUID` make Python raise `TypeError` or `AttributeError`. The argument type rules them out.
- ValueObjects.ToString: requires every field value to be a string. With several fields, every key and value must also be printable ASCII without `"` or `\`. `json.dumps` escaping and the rendering of non-string values are not modelled.
- Validators.Len: Python's `len()` of a str counts code points. The model counts `char`s.
- The mechanics of `FrozenInstanceError` and `object.__setattr__` are not modelled. Immutability is a `const` field that the constructor writes once.
- ValueObjects.Create: validation running exactly once is visible only in the method's body (one call of `Validate`). No contract states a call count.
- Validators.ValidatorRules.MaxLength: a value with no length is modelled as `Err(TypeError)`, which is what `len()` raises, rather than excluded by a precondition.
- `ValidatorFieldsInterface` is imported by the validator tests, but `src/__seedwork/domain/validators.py` as modelled does not define it. `exceptions.py`, the `Entity` base and the `Category` entity are not part of this model. The category tests serve only as examples of the `name` chain.
