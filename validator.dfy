/** The attribute value validator: a five-way decision on the attribute's
    data type over a JavaScript value, an optional option id and the option
    table. The JavaScript built-ins it calls are left uninterpreted. */
module Validator {
  import opened Entities

  /** A JavaScript value as it reaches the validator. Numbers are reals; NaN
      is never a `Num`. */
  datatype Raw = Str(s: string) | Num(n: real) | Bool(b: bool) | Null | Undefined

  /** The built-ins the validator relies on, as parameters:
      `regexTest(pattern, s)` is `new RegExp(pattern).test(s)`,
      `dateParse(v)` is `Date.parse(v)` (None for NaN) and
      `textToNumber(s)` is `Number(s)` (None for NaN). */
  datatype Builtins = Builtins(
    regexTest: (string, string) -> bool,
    dateParse: Raw -> Option<int>,
    textToNumber: string -> Option<real>)

  datatype Verdict = Accepted | Rejected(why: Violation)

  /** `Number(v)`: booleans become 0 or 1, null becomes 0, undefined is NaN. */
  function ToNumber(js: Builtins, v: Raw): Option<real>
  {
    match v
    case Num(n) => Some(n)
    case Bool(b) => Some(if b then 1.0 else 0.0)
    case Null => Some(0.0)
    case Undefined => None
    case Str(s) => js.textToNumber(s)
  }

  /** `Date.parse(v)`: undefined and null (the text "null") never parse. */
  function ParseDate(js: Builtins, v: Raw): Option<int>
  {
    if v.Undefined? || v.Null? then None else js.dateParse(v)
  }

  /** The length limit of a TEXT attribute; 0 and null both mean none. */
  function LengthLimit(a: Attribute): Option<int>
  {
    if a.maxLength.Some? && a.maxLength.value != 0 then a.maxLength else None
  }

  /** The pattern of a TEXT attribute; null and the empty pattern mean none. */
  function Pattern(a: Attribute): Option<string>
  {
    if a.regex.Some? && a.regex.value != "" then a.regex else None
  }

  /** The acceptance rules, stated as one condition per data type. */
  predicate Acceptable(js: Builtins, a: Attribute, v: Raw, optionId: Option<Id>,
                       options: map<Id, AttributeOption>)
  {
    match a.dataType
    case Text =>
      && v.Str?
      && (a.maxLength.None? || a.maxLength.value == 0 || |v.s| <= a.maxLength.value)
      && (a.regex.None? || a.regex.value == "" || js.regexTest(a.regex.value, v.s))
    case Number =>
      && ToNumber(js, v).Some?
      && (a.minNumber.None? || a.minNumber.value <= ToNumber(js, v).value)
      && (a.maxNumber.None? || ToNumber(js, v).value <= a.maxNumber.value)
    case Boolean => v.Bool?
    case Date => ParseDate(js, v).Some? && ParseDate(js, v).value != 0
    case Enum =>
      && optionId.Some?
      && optionId.value in options
      && options[optionId.value].attributeId == a.id
  }

  /** The violations each data type's rules can report. */
  predicate ReportedBy(why: Violation, t: DataType)
  {
    match t
    case Text => why.NotAString? || why.TooLong? || why.PatternMismatch?
    case Number => why.NotANumber? || why.BelowMinimum? || why.AboveMaximum?
    case Boolean => why.NotABoolean?
    case Date => why.NotADate?
    case Enum => why.OptionRequired? || why.InvalidOption?
  }

  /** The checks in the order the service makes them; the first that fails
      gives the reason. */
  function Validate(js: Builtins, a: Attribute, v: Raw, optionId: Option<Id>,
                    options: map<Id, AttributeOption>): (c: Verdict)
    ensures c.Accepted? <==> Acceptable(js, a, v, optionId, options)
    ensures c.Rejected? ==> ReportedBy(c.why, a.dataType)
  {
    match a.dataType
    case Text =>
      if !v.Str? then Rejected(NotAString)
      else if LengthLimit(a).Some? && |v.s| > LengthLimit(a).value then
        Rejected(TooLong(LengthLimit(a).value))
      else if Pattern(a).Some? && !js.regexTest(Pattern(a).value, v.s) then
        Rejected(PatternMismatch)
      else Accepted
    case Number =>
      var n := ToNumber(js, v);
      if n.None? then Rejected(NotANumber)
      else if a.minNumber.Some? && n.value < a.minNumber.value then
        Rejected(BelowMinimum(a.minNumber.value))
      else if a.maxNumber.Some? && n.value > a.maxNumber.value then
        Rejected(AboveMaximum(a.maxNumber.value))
      else Accepted
    case Boolean =>
      if !v.Bool? then Rejected(NotABoolean) else Accepted
    case Date =>
      var t := ParseDate(js, v);
      if t.None? || t.value == 0 then Rejected(NotADate) else Accepted
    case Enum =>
      if optionId.None? then Rejected(OptionRequired)
      else if optionId.value !in options || options[optionId.value].attributeId != a.id then
        Rejected(InvalidOption)
      else Accepted
  }

  /** TEXT: a value that is not a string is rejected for that reason first. */
  lemma TextNeedsString(js: Builtins, a: Attribute, v: Raw, o: Option<Id>,
                        options: map<Id, AttributeOption>)
    requires a.dataType == Text && !v.Str?
    ensures Validate(js, a, v, o, options) == Rejected(NotAString)
  {
  }

  /** TEXT with a non-zero length limit L and no pattern: accepted iff the
      length is at most L; a longer string reports L. */
  lemma TextLengthLimit(js: Builtins, a: Attribute, s: string, o: Option<Id>,
                        options: map<Id, AttributeOption>, limit: int)
    requires a.dataType == Text && a.maxLength == Some(limit) && limit != 0 && a.regex.None?
    ensures Validate(js, a, Str(s), o, options) ==
            if |s| <= limit then Accepted else Rejected(TooLong(limit))
  {
  }

  /** TEXT: a length limit of 0 (or none) lets strings of any length through. */
  lemma TextZeroLimitIsNoLimit(js: Builtins, a: Attribute, s: string, o: Option<Id>,
                               options: map<Id, AttributeOption>)
    requires a.dataType == Text && (a.maxLength.None? || a.maxLength == Some(0))
    ensures Validate(js, a, Str(s), o, options).Accepted? <==>
            (Pattern(a).None? || js.regexTest(Pattern(a).value, s))
  {
  }

  /** NUMBER: both bounds are inclusive. */
  lemma NumberBoundsInclusive(js: Builtins, a: Attribute, lo: real, hi: real, x: real,
                              o: Option<Id>, options: map<Id, AttributeOption>)
    requires a.dataType == Number && a.minNumber == Some(lo) && a.maxNumber == Some(hi)
    ensures Validate(js, a, Num(x), o, options).Accepted? <==> lo <= x <= hi
    ensures x < lo ==> Validate(js, a, Num(x), o, options) == Rejected(BelowMinimum(lo))
    ensures lo <= x && hi < x ==> Validate(js, a, Num(x), o, options) == Rejected(AboveMaximum(hi))
  {
  }

  /** NUMBER: a missing value is not a number. */
  lemma NumberNeedsValue(js: Builtins, a: Attribute, o: Option<Id>,
                         options: map<Id, AttributeOption>)
    requires a.dataType == Number
    ensures Validate(js, a, Undefined, o, options) == Rejected(NotANumber)
  {
  }

  /** BOOLEAN: only genuine booleans are accepted; `Number`-like or
      string values such as "true" are not. */
  lemma BooleanOnlyBooleans(js: Builtins, a: Attribute, v: Raw, o: Option<Id>,
                            options: map<Id, AttributeOption>)
    requires a.dataType == Boolean
    ensures Validate(js, a, v, o, options).Accepted? <==> v.Bool?
  {
  }

  /** DATE: `!Date.parse(v)` also rejects a date that parses to 0, the
      epoch itself. */
  lemma DateEpochRejected(js: Builtins, a: Attribute, v: Raw, o: Option<Id>,
                          options: map<Id, AttributeOption>)
    requires a.dataType == Date && js.dateParse(v) == Some(0)
    ensures Validate(js, a, v, o, options) == Rejected(NotADate)
  {
  }

  /** ENUM: the raw value plays no part in the decision. */
  lemma EnumIgnoresValue(js: Builtins, a: Attribute, v: Raw, w: Raw, o: Option<Id>,
                         options: map<Id, AttributeOption>)
    requires a.dataType == Enum
    ensures Validate(js, a, v, o, options) == Validate(js, a, w, o, options)
  {
  }
}
