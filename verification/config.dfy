/**
 * The shared form constants and the length rule every name field follows.
 */
module Config {
  import opened Js
  import opened Zod

  const PasswordMinLength: nat := 8
  const NameMaxLength: nat := 50
  const NameMinLength: nat := 1

  /** The message of a failed `.max(n, ...)` on a name. */
  function TooLongMessage(max: nat): string
  {
    "Provided value is too long (max " + NatToString(max) + " character(s))"
  }

  /** The message of a failed `.min(n, ...)` on a name. */
  function TooShortMessage(min: nat): string
  {
    "Provided value is too short (min " + NatToString(min) + " character(s))"
  }

  /**
   * `z.string().max(max, ...).min(min, ...)`: a value that is not a string
   * has one type issue; a string collects the issues of both length checks,
   * the upper bound first.
   */
  function NameRule(v: JsValue, min: nat, max: nat): (issues: seq<string>)
    ensures issues == [] <==> v.Str? && min <= JsLength(v.s) <= max
    ensures !v.Str? ==> issues == [InvalidTypeMessage("string", v)]
    ensures min <= max && v.Str? && JsLength(v.s) > max ==> issues == [TooLongMessage(max)]
    ensures min <= max && v.Str? && JsLength(v.s) < min ==> issues == [TooShortMessage(min)]
  {
    match ParseString(v)
    case Err(typeIssues) => typeIssues
    case Ok(s) => MaxCheck(s, max, TooLongMessage(max)) + MinCheck(s, min, TooShortMessage(min))
  }

  /** `nameField`. */
  function NameField(v: JsValue): (issues: seq<string>)
    ensures issues == [] <==> v.Str? && NameMinLength <= JsLength(v.s) <= NameMaxLength
  {
    NameRule(v, NameMinLength, NameMaxLength)
  }

  /** A name of 1 to 50 UTF-16 units passes; a longer or an empty one fails with the exact message. */
  lemma NameFieldRules(v: JsValue)
    ensures NameField(v) == [] <==> v.Str? && 1 <= JsLength(v.s) <= 50
    ensures v.Str? && JsLength(v.s) > 50 ==>
      NameField(v) == ["Provided value is too long (max 50 character(s))"]
    ensures v.Str? && v.s == "" ==>
      NameField(v) == ["Provided value is too short (min 1 character(s))"]
  {
    NameMessages();
  }

  /** The messages with the constants written out. */
  lemma NameMessages()
    ensures TooLongMessage(NameMaxLength) == "Provided value is too long (max 50 character(s))"
    ensures TooShortMessage(NameMinLength) == "Provided value is too short (min 1 character(s))"
  {
    FiftyText();
    NameMessageText();
  }

  lemma FiftyText()
    ensures NatToString(50) == "50"
  {
    assert NatToString(50) == NatToString(5) + [DigitChar(0)];
  }

  lemma NameMessageText()
    ensures "Provided value is too long (max " + "50" + " character(s))" == "Provided value is too long (max 50 character(s))"
    ensures "Provided value is too short (min " + "1" + " character(s))" == "Provided value is too short (min 1 character(s))"
  {
  }
}
