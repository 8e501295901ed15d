/** The fluent validation rule chain `ValidatorRules` of the domain
    seedwork: a frozen pair (value, attribute) with four checks, each of which
    returns the chain unchanged or raises `ValidationException`. */
module Validators {
  import opened Results
  import Decimal

  /** An untyped Python value, as far as the rules can tell values apart. */
  datatype Value =
    | VNone
    | VStr(s: string)
    | VBool(b: bool)
    | VInt(i: int)
    | VDict(size: nat)  // a dict; the rules only ever observe its number of entries

  /** What a rule raises. `TypeError` is what `len()` raises on a bool or an int. */
  datatype RuleError =
    | ValidationException(message: string)
    | TypeError

  /** The four checks, as a value, so that a chain of calls can be a sequence. */
  datatype Rule = IsRequired | IsString | HasMaxLength(limit: int) | IsBoolean

  /** Python's `len()` where it is defined on a value. */
  function Len(v: Value): (n: Option<nat>)
    ensures n.Some? <==> v.VStr? || v.VDict?
  {
    match v
    case VStr(s) => Some(|s|)
    case VDict(size) => Some(size)
    case _ => None
  }

  // The fixed pieces of the four failure messages.
  const MessagePrefix := "The \""
  const RequiredSuffix := "\" is required."
  const StringSuffix := "\" must be a string."
  const BooleanSuffix := "\" must be a boolean"  // no final period: see README
  const MaxLengthInfix := "\" must be less than "
  const MaxLengthSuffix := " characters."

  /** The message each rule raises for `attribute`. */
  function ErrorMessage(rule: Rule, attribute: string): (message: string)
    ensures StartsWith(message, MessagePrefix + attribute)
  {
    match rule
    case IsRequired => MessagePrefix + attribute + RequiredSuffix
    case IsString => MessagePrefix + attribute + StringSuffix
    case HasMaxLength(n) =>
      MessagePrefix + attribute + MaxLengthInfix + Decimal.IntToString(n) + MaxLengthSuffix
    case IsBoolean => MessagePrefix + attribute + BooleanSuffix
  }

  datatype ValidatorRules = ValidatorRules(value: Value, attribute: string) {

    /** `ValidatorRules.values(value, attribute)`. */
    static function Values(value: Value, attribute: string): (r: ValidatorRules)
      ensures r.value == value && r.attribute == attribute
    {
      ValidatorRules(value, attribute)
    }

    /** `required()`: only `None` and the empty string are missing. */
    function Required(): (r: Result<ValidatorRules, RuleError>)
      ensures r.Err? <==> value == VNone || value == VStr("")
      ensures r.Ok? ==> r.value == this
      ensures r.Err? ==>
                r.error.ValidationException? && ParseError(r.error.message) == Some(Failure(IsRequired, attribute))
    {
      if value.VNone? || value == VStr("") then
        ErrorMessageRoundTrip(IsRequired, attribute);
        Err(ValidationException(ErrorMessage(IsRequired, attribute)))
      else
        Ok(this)
    }

    /** `string()`: anything but `None` that is not a str fails. */
    function String(): (r: Result<ValidatorRules, RuleError>)
      ensures r.Err? <==> !value.VNone? && !value.VStr?
      ensures r.Ok? ==> r.value == this
      ensures r.Err? ==>
                r.error.ValidationException? && ParseError(r.error.message) == Some(Failure(IsString, attribute))
    {
      if !value.VNone? && !value.VStr? then
        ErrorMessageRoundTrip(IsString, attribute);
        Err(ValidationException(ErrorMessage(IsString, attribute)))
      else
        Ok(this)
    }

    /** `max_length(maxLength)`: a value longer than `maxLength` fails; a value
        without a length other than `None` makes `len()` raise. */
    function MaxLength(maxLength: int): (r: Result<ValidatorRules, RuleError>)
      ensures r.Ok? <==> value.VNone? || (Len(value).Some? && Len(value).value <= maxLength)
      ensures r == Err(TypeError) <==> value.VBool? || value.VInt?
      ensures r.Ok? ==> r.value == this
      ensures r.Err? && r.error.ValidationException? ==>
                ParseError(r.error.message) == Some(Failure(HasMaxLength(maxLength), attribute))
    {
      if value.VNone? then Ok(this)
      else if Len(value).None? then Err(TypeError)
      else if Len(value).value > maxLength then
        ErrorMessageRoundTrip(HasMaxLength(maxLength), attribute);
        Err(ValidationException(ErrorMessage(HasMaxLength(maxLength), attribute)))
      else Ok(this)
    }

    /** `boolean()`: identity with `True` or `False`, not truthiness. */
    function Boolean(): (r: Result<ValidatorRules, RuleError>)
      ensures r.Ok? <==> value.VNone? || value == VBool(true) || value == VBool(false)
      ensures r.Ok? ==> r.value == this
      ensures r.Err? ==>
                r.error.ValidationException? && ParseError(r.error.message) == Some(Failure(IsBoolean, attribute))
    {
      if !value.VNone? && value != VBool(true) && value != VBool(false) then
        ErrorMessageRoundTrip(IsBoolean, attribute);
        Err(ValidationException(ErrorMessage(IsBoolean, attribute)))
      else
        Ok(this)
    }

    /** One call of a rule method on this chain. */
    function Check(rule: Rule): (r: Result<ValidatorRules, RuleError>)
      ensures r.Ok? ==> r.value == this
    {
      match rule
      case IsRequired => Required()
      case IsString => String()
      case HasMaxLength(n) => MaxLength(n)
      case IsBoolean => Boolean()
    }

    /** `self.rule_1().rule_2()...`: each call is made on what the previous one
        returned, and the first raise ends the chain. */
    function CheckAll(rules: seq<Rule>): (r: Result<ValidatorRules, RuleError>)
      ensures r.Ok? ==> r.value == this
      decreases |rules|
    {
      if rules == [] then Ok(this)
      else
        match Check(rules[0])
        case Err(e) => Err(e)
        case Ok(next) => next.CheckAll(rules[1..])
    }
  }

  /** A chain of rules succeeds exactly when every rule succeeds on its own
      on the original pair, and then it hands back that same pair. */
  lemma {:induction false} ChainSucceedsIffEachRule(chain: ValidatorRules, rules: seq<Rule>)
    ensures chain.CheckAll(rules).Ok? <==> forall i :: 0 <= i < |rules| ==> chain.Check(rules[i]).Ok?
    ensures chain.CheckAll(rules).Ok? ==> chain.CheckAll(rules).value == chain
    decreases |rules|
  {
    if rules != [] {
      ChainSucceedsIffEachRule(chain, rules[1..]);
      if chain.Check(rules[0]).Ok? {
        assert forall i :: 1 <= i < |rules| ==> rules[i] == rules[1..][i - 1];
      }
    }
  }

  /** When rule `k` is the first to fail, the chain raises rule `k`'s error. */
  lemma {:induction false} FirstFailureWins(chain: ValidatorRules, rules: seq<Rule>, k: nat)
    requires k < |rules|
    requires forall j :: 0 <= j < k ==> chain.Check(rules[j]).Ok?
    requires chain.Check(rules[k]).Err?
    ensures chain.CheckAll(rules) == Err(chain.Check(rules[k]).error)
    decreases k
  {
    if k > 0 {
      assert chain.Check(rules[0]) == Ok(chain);
      assert chain.CheckAll(rules) == chain.CheckAll(rules[1..]);
      assert forall j :: 0 <= j < k - 1 ==> rules[1..][j] == rules[j + 1];
      FirstFailureWins(chain, rules[1..], k - 1);
    }
  }

  // --- Reading a failure message back -----------------------------------

  /** Which rule failed, on which attribute. */
  datatype Failure = Failure(rule: Rule, attribute: string)

  predicate StartsWith(s: string, prefix: string) {
    |prefix| <= |s| && s[..|prefix|] == prefix
  }

  predicate EndsWith(s: string, suffix: string) {
    |suffix| <= |s| && s[|s| - |suffix|..] == suffix
  }

  /** `s` without its last `k` characters. */
  function DropLast(s: string, k: nat): string
    requires k <= |s|
  {
    s[..|s| - k]
  }

  /** Length of the run of decimal digits that ends `s`. */
  function TrailingDigits(s: string): (k: nat)
    ensures k <= |s| && Decimal.AllDigits(s[|s| - k..])
  {
    if s == [] || !Decimal.IsDigit(s[|s| - 1]) then 0
    else
      var k := TrailingDigits(s[..|s| - 1]);
      assert s[|s| - (k + 1)..] == s[..|s| - 1][|s| - 1 - k..] + [s[|s| - 1]];
      k + 1
  }

  /** A message after its fixed opening. */
  function MessageBody(rule: Rule, attribute: string): string {
    match rule
    case IsRequired => attribute + RequiredSuffix
    case IsString => attribute + StringSuffix
    case HasMaxLength(n) => attribute + MaxLengthInfix + Decimal.IntToString(n) + MaxLengthSuffix
    case IsBoolean => attribute + BooleanSuffix
  }

  lemma ErrorMessageHasBody(rule: Rule, attribute: string)
    ensures ErrorMessage(rule, attribute) == MessagePrefix + MessageBody(rule, attribute)
  {
    match rule {
      case IsRequired => assert MessagePrefix + attribute + RequiredSuffix == MessagePrefix + (attribute + RequiredSuffix);
      case IsString => assert MessagePrefix + attribute + StringSuffix == MessagePrefix + (attribute + StringSuffix);
      case IsBoolean => assert MessagePrefix + attribute + BooleanSuffix == MessagePrefix + (attribute + BooleanSuffix);
      case HasMaxLength(n) =>
        assert MessagePrefix + attribute + MaxLengthInfix + Decimal.IntToString(n) + MaxLengthSuffix
            == MessagePrefix + (attribute + MaxLengthInfix + Decimal.IntToString(n) + MaxLengthSuffix);
    }
  }

  /** The inverse of `ErrorMessage`: it identifies the rule by the message's
      ending and takes the attribute from between the fixed pieces. */
  function ParseError(message: string): Option<Failure> {
    if StartsWith(message, MessagePrefix) then ParseBody(message[|MessagePrefix|..]) else None
  }

  /** A message without its fixed prefix. */
  function ParseBody(body: string): Option<Failure> {
    if EndsWith(body, RequiredSuffix) then
      Some(Failure(IsRequired, DropLast(body, |RequiredSuffix|)))
    else if EndsWith(body, StringSuffix) then
      Some(Failure(IsString, DropLast(body, |StringSuffix|)))
    else if EndsWith(body, BooleanSuffix) then
      Some(Failure(IsBoolean, DropLast(body, |BooleanSuffix|)))
    else if EndsWith(body, MaxLengthSuffix) then
      ParseLimit(DropLast(body, |MaxLengthSuffix|))
    else None
  }

  /** `attribute" must be less than <n>`: the limit is the trailing
      (optionally negative) number, written as `str()` writes it: without
      leading zeros. */
  function ParseLimit(front: string): Option<Failure> {
    var k := TrailingDigits(front);
    var digits := front[|front| - k..];
    if k == 0 || (k > 1 && digits[0] == '0') then None
    else ParseSigned(DropLast(front, k), Decimal.ParseNat(digits))
  }

  /** What precedes the digits: a minus sign (never before zero) or nothing,
      then the attribute's part. */
  function ParseSigned(rest: string, magnitude: nat): Option<Failure> {
    if |rest| > 0 && rest[|rest| - 1] == '-' then
      if magnitude == 0 then None else ParseAttribute(DropLast(rest, 1), -(magnitude as int))
    else ParseAttribute(rest, magnitude)
  }

  function ParseAttribute(head: string, limit: int): Option<Failure> {
    if EndsWith(head, MaxLengthInfix) then
      Some(Failure(HasMaxLength(limit), DropLast(head, |MaxLengthInfix|)))
    else None
  }

  lemma {:induction false} TrailingDigitsOfAppend(p: string, d: string)
    requires Decimal.AllDigits(d)
    requires p == [] || !Decimal.IsDigit(p[|p| - 1])
    ensures TrailingDigits(p + d) == |d|
    decreases |d|
  {
    if d == [] {
      assert p + d == p;
    } else {
      assert (p + d)[..|p + d| - 1] == p + d[..|d| - 1];
      TrailingDigitsOfAppend(p, d[..|d| - 1]);
    }
  }

  /** A string that differs from `suffix` `back` characters from the end does not end with it. */
  lemma DiffersNearEnd(s: string, suffix: string, back: nat)
    requires 0 < back <= |suffix| && back <= |s|
    requires s[|s| - back] != suffix[|suffix| - back]
    ensures !EndsWith(s, suffix)
  {
    if |suffix| <= |s| {
      assert s[|s| - |suffix|..][|suffix| - back] == s[|s| - back];
    }
  }

  /** `middle + suffix` ends with `suffix`, and dropping it gives back `middle`. */
  lemma SplitEnd(middle: string, suffix: string)
    ensures EndsWith(middle + suffix, suffix) && DropLast(middle + suffix, |suffix|) == middle
  {
    var m := middle + suffix;
    assert m[|m| - |suffix|..] == suffix;
    assert m[..|m| - |suffix|] == middle;
  }

  /** The trailing digits of `rest + digits`, where `rest` does not end in a
      digit, are `digits`. */
  lemma SplitTrailingDigits(rest: string, digits: string)
    requires Decimal.AllDigits(digits)
    requires rest == [] || !Decimal.IsDigit(rest[|rest| - 1])
    ensures TrailingDigits(rest + digits) == |digits|
    ensures DropLast(rest + digits, |digits|) == rest
    ensures (rest + digits)[|rest + digits| - |digits|..] == digits
  {
    TrailingDigitsOfAppend(rest, digits);
    SplitEnd(rest, digits);
  }

  lemma ParseLimitOfDigits(rest: string, digits: string)
    requires digits != [] && Decimal.AllDigits(digits)
    requires |digits| > 1 ==> digits[0] != '0'
    requires rest == [] || !Decimal.IsDigit(rest[|rest| - 1])
    ensures ParseLimit(rest + digits) == ParseSigned(rest, Decimal.ParseNat(digits))
  {
    SplitTrailingDigits(rest, digits);
  }

  lemma ParseSignedNegative(head: string, magnitude: nat)
    requires magnitude > 0
    ensures ParseSigned(head + "-", magnitude) == ParseAttribute(head, -(magnitude as int))
  {
    SplitEnd(head, "-");
  }

  lemma ParseLimitRoundTrip(attribute: string, n: int)
    ensures ParseLimit(attribute + MaxLengthInfix + Decimal.IntToString(n)) == Some(Failure(HasMaxLength(n), attribute))
  {
    var head := attribute + MaxLengthInfix;
    SplitEnd(attribute, MaxLengthInfix);
    var magnitude: nat := if n < 0 then -n else n;
    var digits := Decimal.NatToString(magnitude);
    Decimal.ParseNatToString(magnitude);
    if n < 0 {
      assert head + Decimal.IntToString(n) == (head + "-") + digits;
      ParseLimitOfDigits(head + "-", digits);
      ParseSignedNegative(head, magnitude);
    } else {
      assert head[|head| - 1] == ' ';
      ParseLimitOfDigits(head, digits);
    }
  }

  lemma MaxLengthBodyRoundTrip(n: int, attribute: string)
    ensures ParseBody(MessageBody(HasMaxLength(n), attribute)) == Some(Failure(HasMaxLength(n), attribute))
  {
    var front := attribute + MaxLengthInfix + Decimal.IntToString(n);
    var body := front + MaxLengthSuffix;
    assert body[|body| - 2] == 's';
    DiffersNearEnd(body, RequiredSuffix, 2);
    DiffersNearEnd(body, StringSuffix, 2);
    DiffersNearEnd(body, BooleanSuffix, 1);
    SplitEnd(front, MaxLengthSuffix);
    ParseLimitRoundTrip(attribute, n);
  }

  lemma RequiredBodyRoundTrip(attribute: string)
    ensures ParseBody(MessageBody(IsRequired, attribute)) == Some(Failure(IsRequired, attribute))
  {
    SplitEnd(attribute, RequiredSuffix);
  }

  lemma StringBodyRoundTrip(attribute: string)
    ensures ParseBody(MessageBody(IsString, attribute)) == Some(Failure(IsString, attribute))
  {
    var body := attribute + StringSuffix;
    SplitEnd(attribute, StringSuffix);
    DiffersNearEnd(body, RequiredSuffix, 2);
  }

  lemma BooleanBodyRoundTrip(attribute: string)
    ensures ParseBody(MessageBody(IsBoolean, attribute)) == Some(Failure(IsBoolean, attribute))
  {
    var body := attribute + BooleanSuffix;
    SplitEnd(attribute, BooleanSuffix);
    DiffersNearEnd(body, RequiredSuffix, 1);
    DiffersNearEnd(body, StringSuffix, 1);
  }

  /** Every failure message names its rule, its attribute and (for
      `max_length`) its limit, unambiguously. */
  lemma ErrorMessageRoundTrip(rule: Rule, attribute: string)
    ensures ParseError(ErrorMessage(rule, attribute)) == Some(Failure(rule, attribute))
  {
    var body := MessageBody(rule, attribute);
    var m := MessagePrefix + body;
    ErrorMessageHasBody(rule, attribute);
    assert m[..|MessagePrefix|] == MessagePrefix;
    assert m[|MessagePrefix|..] == body;
    match rule {
      case IsRequired => RequiredBodyRoundTrip(attribute);
      case IsString => StringBodyRoundTrip(attribute);
      case IsBoolean => BooleanBodyRoundTrip(attribute);
      case HasMaxLength(n) => MaxLengthBodyRoundTrip(n, attribute);
    }
  }

  /** Distinct failures never share a message. */
  lemma ErrorMessageInjective(r1: Rule, a1: string, r2: Rule, a2: string)
    requires ErrorMessage(r1, a1) == ErrorMessage(r2, a2)
    ensures r1 == r2 && a1 == a2
  {
    ErrorMessageRoundTrip(r1, a1);
    ErrorMessageRoundTrip(r2, a2);
  }

  // --- Every message the reader accepts is one a rule raises -------------

  /** A string that ends with `suffix` is what precedes it followed by `suffix`. */
  lemma EndsWithSplit(s: string, suffix: string)
    requires EndsWith(s, suffix)
    ensures s == DropLast(s, |suffix|) + suffix
  {
    assert s == s[..|s| - |suffix|] + s[|s| - |suffix|..];
  }

  lemma ParseAttributeExact(head: string, limit: int)
    requires ParseAttribute(head, limit).Some?
    ensures ParseAttribute(head, limit).value.rule == HasMaxLength(limit)
    ensures head == ParseAttribute(head, limit).value.attribute + MaxLengthInfix
  {
    EndsWithSplit(head, MaxLengthInfix);
  }

  lemma ParseSignedExact(rest: string, magnitude: nat)
    requires ParseSigned(rest, magnitude).Some?
    ensures var f := ParseSigned(rest, magnitude).value;
            && f.rule.HasMaxLength?
            && rest + Decimal.NatToString(magnitude) == f.attribute + MaxLengthInfix + Decimal.IntToString(f.rule.limit)
  {
    var digits := Decimal.NatToString(magnitude);
    if |rest| > 0 && rest[|rest| - 1] == '-' {
      var head := DropLast(rest, 1);
      ParseAttributeExact(head, -(magnitude as int));
      assert EndsWith(rest, "-");
      EndsWithSplit(rest, "-");
      assert Decimal.IntToString(-(magnitude as int)) == "-" + digits;
      assert rest + digits == head + ("-" + digits);
    } else {
      ParseAttributeExact(rest, magnitude);
    }
  }

  lemma ParseLimitExact(front: string)
    requires ParseLimit(front).Some?
    ensures var f := ParseLimit(front).value;
            f.rule.HasMaxLength? && front == f.attribute + MaxLengthInfix + Decimal.IntToString(f.rule.limit)
  {
    var k := TrailingDigits(front);
    var digits := front[|front| - k..];
    var rest := DropLast(front, k);
    assert front == rest + digits;
    Decimal.NatToStringParseNat(digits);
    ParseSignedExact(rest, Decimal.ParseNat(digits));
  }

  lemma ParseBodyExact(body: string)
    requires ParseBody(body).Some?
    ensures body == MessageBody(ParseBody(body).value.rule, ParseBody(body).value.attribute)
  {
    if EndsWith(body, RequiredSuffix) {
      EndsWithSplit(body, RequiredSuffix);
    } else if EndsWith(body, StringSuffix) {
      EndsWithSplit(body, StringSuffix);
    } else if EndsWith(body, BooleanSuffix) {
      EndsWithSplit(body, BooleanSuffix);
    } else {
      EndsWithSplit(body, MaxLengthSuffix);
      ParseLimitExact(DropLast(body, |MaxLengthSuffix|));
    }
  }

  /** The reader accepts only messages a rule raises. */
  lemma ParseErrorExact(message: string)
    requires ParseError(message).Some?
    ensures message == ErrorMessage(ParseError(message).value.rule, ParseError(message).value.attribute)
  {
    var f := ParseError(message).value;
    var body := message[|MessagePrefix|..];
    assert message == MessagePrefix + body;
    ParseBodyExact(body);
    ErrorMessageHasBody(f.rule, f.attribute);
  }

  /** A message decodes to a failure exactly when it is that failure's
      message, so a contract that fixes the decoding fixes the text. */
  lemma ParseErrorCharacterises(message: string, f: Failure)
    ensures ParseError(message) == Some(f) <==> message == ErrorMessage(f.rule, f.attribute)
  {
    if ParseError(message) == Some(f) {
      ParseErrorExact(message);
    }
    if message == ErrorMessage(f.rule, f.attribute) {
      ErrorMessageRoundTrip(f.rule, f.attribute);
    }
  }

  /** Whatever a rule raises as a `ValidationException` is exactly its
      message for the chain's attribute (and, for `max_length`, its limit). */
  lemma RaisedMessageIsExact(chain: ValidatorRules, rule: Rule)
    requires chain.Check(rule).Err? && chain.Check(rule).error.ValidationException?
    ensures chain.Check(rule).error.message == ErrorMessage(rule, chain.attribute)
  {
    ParseErrorCharacterises(chain.Check(rule).error.message, Failure(rule, chain.attribute));
  }

  // --- The accept and reject sets fixed by the unit tests ----------------

  // The tested messages, spelled out from their fixed pieces.
  lemma RequiredTextAttribute()
    ensures MessagePrefix + "attribute" + RequiredSuffix == "The \"attribute\" is required."
  {
  }

  lemma RequiredTextName()
    ensures MessagePrefix + "name" + RequiredSuffix == "The \"name\" is required."
  {
  }

  lemma StringTextAttribute()
    ensures MessagePrefix + "attribute" + StringSuffix == "The \"attribute\" must be a string."
  {
  }

  lemma StringTextName()
    ensures MessagePrefix + "name" + StringSuffix == "The \"name\" must be a string."
  {
  }

  lemma BooleanTextAttribute()
    ensures MessagePrefix + "attribute" + BooleanSuffix == "The \"attribute\" must be a boolean"
  {
  }

  lemma MaxLengthHeadAttribute()
    ensures MessagePrefix + "attribute" + MaxLengthInfix == "The \"attribute\" must be less than "
  {
  }

  lemma MaxLengthTextAttribute()
    ensures ErrorMessage(HasMaxLength(4), "attribute") == "The \"attribute\" must be less than 4 characters."
  {
    Decimal.IntToStringExamples();
    MaxLengthHeadAttribute();
    assert "The \"attribute\" must be less than " + "4" + MaxLengthSuffix
        == "The \"attribute\" must be less than 4 characters.";
  }

  lemma MaxLengthHeadName()
    ensures MessagePrefix + "name" + MaxLengthInfix == "The \"name\" must be less than "
  {
  }

  lemma MaxLengthTextName()
    ensures ErrorMessage(HasMaxLength(255), "name") == "The \"name\" must be less than 255 characters."
  {
    Decimal.IntToStringExamples();
    MaxLengthHeadName();
    assert "The \"name\" must be less than " + "255" + MaxLengthSuffix
        == "The \"name\" must be less than 255 characters.";
  }

  lemma ValuesExample()
    ensures ValidatorRules.Values(VStr("some value"), "attribute") == ValidatorRules(VStr("some value"), "attribute")
  {
  }

  lemma RequiredExamples()
    ensures ValidatorRules(VNone, "attribute").Required() == Err(ValidationException("The \"attribute\" is required."))
    ensures ValidatorRules(VStr(""), "attribute").Required() == Err(ValidationException("The \"attribute\" is required."))
    ensures ValidatorRules(VStr("test"), "attribute").Required().Ok?
    ensures ValidatorRules(VInt(5), "attribute").Required().Ok?
    ensures ValidatorRules(VInt(0), "attribute").Required().Ok?
    ensures ValidatorRules(VBool(false), "attribute").Required().Ok?
  {
    RequiredTextAttribute();
  }

  lemma StringExamples()
    ensures ValidatorRules(VInt(5), "attribute").String() == Err(ValidationException("The \"attribute\" must be a string."))
    ensures ValidatorRules(VBool(true), "attribute").String() == Err(ValidationException("The \"attribute\" must be a string."))
    ensures ValidatorRules(VDict(0), "attribute").String() == Err(ValidationException("The \"attribute\" must be a string."))
    ensures ValidatorRules(VNone, "attribute").String().Ok?
    ensures ValidatorRules(VStr(""), "attribute").String().Ok?
    ensures ValidatorRules(VStr("some value"), "attribute").String().Ok?
  {
    StringTextAttribute();
  }

  lemma MaxLengthExamples()
    ensures ValidatorRules(VStr("ttttt"), "attribute").MaxLength(4)
         == Err(ValidationException("The \"attribute\" must be less than 4 characters."))
    ensures ValidatorRules(VStr("ttttt"), "attribute").MaxLength(5).Ok?
    ensures ValidatorRules(VNone, "attribute").MaxLength(5).Ok?
  {
    MaxLengthTextAttribute();
  }

  lemma BooleanExamples()
    ensures ValidatorRules(VStr(""), "attribute").Boolean() == Err(ValidationException("The \"attribute\" must be a boolean"))
    ensures ValidatorRules(VDict(0), "attribute").Boolean() == Err(ValidationException("The \"attribute\" must be a boolean"))
    ensures ValidatorRules(VInt(5), "attribute").Boolean() == Err(ValidationException("The \"attribute\" must be a boolean"))
    ensures ValidatorRules(VBool(true), "attribute").Boolean().Ok?
    ensures ValidatorRules(VBool(false), "attribute").Boolean().Ok?
    ensures ValidatorRules(VNone, "attribute").Boolean().Ok?
  {
    BooleanTextAttribute();
  }

  /** The unit tests expect a final period after "boolean"; the rule as
      written raises its message without one. */
  lemma BooleanMessageLacksTestedPeriod(attribute: string)
    ensures ErrorMessage(IsBoolean, attribute) != MessagePrefix + attribute + "\" must be a boolean."
  {
    assert |ErrorMessage(IsBoolean, attribute)| < |MessagePrefix + attribute + "\" must be a boolean."|;
  }

  /** The chain a category's `name` goes through: `required().string().max_length(255)`. */
  const NameRules: seq<Rule> := [IsRequired, IsString, HasMaxLength(255)]

  lemma NameRulesAccept(name: string)
    ensures ValidatorRules(VStr(name), "name").CheckAll(NameRules).Ok? <==> 0 < |name| <= 255
  {
    ChainSucceedsIffEachRule(ValidatorRules(VStr(name), "name"), NameRules);
  }

  lemma NameRulesExamples()
    ensures ValidatorRules(VNone, "name").CheckAll(NameRules) == Err(ValidationException("The \"name\" is required."))
    ensures ValidatorRules(VStr(""), "name").CheckAll(NameRules) == Err(ValidationException("The \"name\" is required."))
    ensures ValidatorRules(VInt(5), "name").CheckAll(NameRules) == Err(ValidationException("The \"name\" must be a string."))
  {
    RequiredTextName();
    StringTextName();
  }

  lemma NameRulesTooLong(name: string)
    requires |name| == 256
    ensures ValidatorRules(VStr(name), "name").CheckAll(NameRules)
         == Err(ValidationException("The \"name\" must be less than 255 characters."))
  {
    MaxLengthTextName();
  }
}
