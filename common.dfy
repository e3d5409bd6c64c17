/** Shared vocabulary of the record store: optional values, the validation-error report the
    serializers produce, the outcome of an endpoint, the text-field rules that the model field
    declarations imply, and the string helpers the queries need. */
module Common {

  datatype Option<T> = None | Some(value: T)

  /** One entry of a validation report: the field it is keyed under and its message.
      Errors raised by an object-level `validate` are keyed under "non_field_errors". */
  datatype FieldError = FieldError(field: string, message: string)

  /** The result of running a serializer's validation: the validated data or the report. */
  datatype Validated<T> = Passed(value: T) | Failed(errors: seq<FieldError>)

  /** What an endpoint answers: a value (HTTP 200/201/204), a validation report (HTTP 400),
      a missing or foreign record (HTTP 404), or a store constraint that rejected the save. */
  datatype Outcome<T> = Ok(value: T) | Invalid(errors: seq<FieldError>) | NotFound | ConstraintViolation

  /** A list endpoint's body: the records and their count. */
  datatype Listing<T> = Listing(count: nat, items: map<nat, T>)

  /** One (value, display label) pair of a choice list. */
  datatype Choice = Choice(value: string, display: string)

  /** Serializers run one rule set in two modes: on create the required fields must be
      present, on a partial update every field is optional. */
  datatype Op = Create | Update

  /** Create validates with no instance, update with the record being edited. */
  function OpOf<T>(instance: Option<T>): Op {
    if instance.None? then Create else Update
  }

  /** A partial update's rule for one field: a supplied value replaces the stored one. */
  function Pick<T>(given: Option<T>, current: T): T {
    if given.Some? then given.value else current
  }

  const NonFieldErrors := "non_field_errors"
  const RequiredMessage := "This field is required."
  const BlankMessage := "This field may not be blank."
  const NullCharacterMessage := "Null characters are not allowed."

  /** The listing of a filtered table, with its count. */
  function ListingOf<T>(items: map<nat, T>): (r: Listing<T>)
    ensures r.items == items && r.count == |items|
  {
    Listing(|items|, items)
  }

  /** Decimal rendering of a natural number, as Python's str() prints it. */
  function NatToString(n: nat): (s: string)
    ensures |s| >= 1
    ensures forall i :: 0 <= i < |s| ==> '0' <= s[i] <= '9'
    ensures n >= 10 ==> s[0] != '0'
  {
    if n < 10 then ["0123456789"[n]] else NatToString(n / 10) + ["0123456789"[n % 10]]
  }

  function MaxLengthMessage(n: nat): string {
    "Ensure this field has no more than " + NatToString(n) + " characters."
  }

  function MinLengthMessage(n: nat): string {
    "Ensure this field has at least " + NatToString(n) + " characters."
  }

  function InvalidChoiceMessage(s: string): string {
    "\"" + s + "\" is not a valid choice."
  }

  /** The checks a model text field implies for its serializer field: `required` unless the
      model gives it blank=True/null=True or a default, `allow_blank` from blank=True, and the
      `max_length` bound. */
  datatype TextRule = TextRule(required: bool, allowBlank: bool, maxLength: Option<nat>)

  predicate TextAcceptable(op: Op, v: Option<string>, rule: TextRule) {
    match v
    case None => op == Update || !rule.required
    case Some(s) => (s != "" || rule.allowBlank) && (rule.maxLength.None? || |s| <= rule.maxLength.value) && '\0' !in s
  }

  /** The validator every character field carries: a value holding U+0000 is refused. */
  function NullCharacterErrors(field: string, s: string): (r: seq<FieldError>)
    ensures r == [] <==> '\0' !in s
    ensures r != [] ==> r == [FieldError(field, NullCharacterMessage)]
  {
    if '\0' in s then [FieldError(field, NullCharacterMessage)] else []
  }

  /** Field-level validation of one text field, keyed by the field. A missing or blank value
      draws its one error; otherwise every validator runs and each failing one adds its error:
      the length bound, then the null-character check. */
  function TextErrors(op: Op, field: string, v: Option<string>, rule: TextRule): (r: seq<FieldError>)
    ensures r == [] <==> TextAcceptable(op, v, rule)
    ensures |r| <= 2 && forall e :: e in r ==> e.field == field
    ensures v.Some? && v.value != "" && '\0' in v.value ==> FieldError(field, NullCharacterMessage) in r
    ensures v.Some? && rule.maxLength.Some? && |v.value| > rule.maxLength.value ==>
              r[0] == FieldError(field, MaxLengthMessage(rule.maxLength.value))
  {
    match v
    case None =>
      if op == Create && rule.required then [FieldError(field, RequiredMessage)] else []
    case Some(s) =>
      if s == "" && !rule.allowBlank then [FieldError(field, BlankMessage)]
      else if s == "" then []
      else
        (if rule.maxLength.Some? && |s| > rule.maxLength.value then [FieldError(field, MaxLengthMessage(rule.maxLength.value))] else [])
        + NullCharacterErrors(field, s)
  }

  predicate ChoiceAcceptable(op: Op, required: bool, v: Option<string>, isChoice: string -> bool) {
    match v
    case None => op == Update || !required
    case Some(s) => isChoice(s)
  }

  /** Field-level validation of a choice field: missing on create while required (a model
      default makes it optional), or not one of the declared values (the empty string
      included). */
  function ChoiceErrors(op: Op, required: bool, field: string, v: Option<string>, isChoice: string -> bool): (r: seq<FieldError>)
    ensures r == [] <==> ChoiceAcceptable(op, required, v, isChoice)
    ensures |r| <= 1 && forall e :: e in r ==> e.field == field
  {
    match v
    case None => if op == Create && required then [FieldError(field, RequiredMessage)] else []
    case Some(s) => if isChoice(s) then [] else [FieldError(field, InvalidChoiceMessage(s))]
  }

  /** ASCII case folding. The folding `icontains` applies is the database's own; this model
      fixes it to ASCII letters. */
  function LowerChar(c: char): char {
    if 'A' <= c <= 'Z' then (c as int + 32) as char else c
  }

  function Lower(s: string): (r: string)
    ensures |r| == |s|
    ensures forall i :: 0 <= i < |s| ==> r[i] == LowerChar(s[i])
  {
    seq(|s|, i requires 0 <= i < |s| => LowerChar(s[i]))
  }

  predicate StartsWith(s: string, prefix: string) {
    |prefix| <= |s| && s[..|prefix|] == prefix
  }

  /** `sub` occurs in `s`, searched from the left. */
  predicate Contains(s: string, sub: string)
    decreases |s|
  {
    StartsWith(s, sub) || (|s| > 0 && Contains(s[1..], sub))
  }

  /** `sub` sits in `s` at offset `i`. */
  predicate OccursAt(s: string, sub: string, i: int) {
    0 <= i <= |s| - |sub| && s[i..i + |sub|] == sub
  }

  /** The search above finds `sub` exactly when it sits in `s` at some offset. */
  lemma {:induction false} ContainsIffOccurs(s: string, sub: string)
    ensures Contains(s, sub) <==> exists i :: OccursAt(s, sub, i)
    decreases |s|
  {
    if StartsWith(s, sub) {
      assert OccursAt(s, sub, 0);
    } else if |s| > 0 {
      ContainsIffOccurs(s[1..], sub);
      forall j | OccursAt(s[1..], sub, j)
        ensures OccursAt(s, sub, j + 1)
      {
        assert s[j + 1..j + 1 + |sub|] == s[1..][j..j + |sub|];
      }
      forall i | OccursAt(s, sub, i)
        ensures OccursAt(s[1..], sub, i - 1)
      {
        assert s[1..][i - 1..i - 1 + |sub|] == s[i..i + |sub|];
      }
    }
  }

  /** Case-insensitive substring match (the `icontains` lookup). */
  predicate ContainsIgnoringCase(s: string, sub: string) {
    Contains(Lower(s), Lower(sub))
  }
}
