/** The field schema's validation (`validateField`, `validateForm`): a
    required field is valid when the browser's own constraint check passes and
    its trimmed value is non-empty. The browser's constraint check
    (`checkValidity`, which knows the input's type and attributes) is a
    parameter: it is given the field's id and value. */
module Validation {
  import opened Optional
  import opened Text
  import opened Collector

  /** The element ids `validateForm` checks, in order. */
  const RequiredFields: seq<string> := ["firstName", "lastName", "jobTitle", "email"]

  /** `validateField`: the constraint check passes and the value is not blank.
      The result is also the field group's error state, negated. */
  function ValidateField(value: string, constraintOk: bool): (valid: bool)
    ensures valid <==> constraintOk && !AllWhitespace(value)
  {
    TrimEmptyIffBlank(value);
    constraintOk && Trim(value) != ""
  }

  /** Whether the field with id `id` is present and valid. */
  predicate FieldValid(fields: map<string, string>, check: (string, string) -> bool, id: string) {
    match FormGet(fields, id)
    case Some(v) => ValidateField(v, check(id, v))
    case None => false
  }

  /** One step of `validateForm`: the field's verdict, or none when its
      element is missing. */
  function CheckField(fields: map<string, string>, check: (string, string) -> bool, id: string): (r: Option<bool>)
    ensures r.None? <==> id !in fields
    ensures r.Some? ==> (r.value <==> FieldValid(fields, check, id))
  {
    match FormGet(fields, id)
    case Some(v) => Some(ValidateField(v, check(id, v)))
    case None => None
  }

  /** What `validateForm` leaves behind: either every required field was
      validated, with the verdict and each field's error state, or a required
      element was missing and the lookup threw after the fields before it had
      been marked. */
  datatype FormCheck =
    | Checked(valid: bool, errors: seq<bool>)
    | Missing(field: string, errors: seq<bool>)

  /** The loop of `validateForm` over the ids `ids`: each field is validated
      in order, with no short-circuit, so that each one's error state is set;
      a missing element stops the loop with the fields before it marked. */
  method ValidateFields(fields: map<string, string>, check: (string, string) -> bool, ids: seq<string>)
    returns (r: FormCheck)
    ensures r.Checked? <==> forall k :: 0 <= k < |ids| ==> ids[k] in fields
    ensures r.Checked? ==> |r.errors| == |ids|
    ensures r.Checked? ==> (r.valid <==> forall k :: 0 <= k < |ids| ==> FieldValid(fields, check, ids[k]))
    ensures r.Missing? ==> |r.errors| < |ids|
                           && r.field == ids[|r.errors|]
                           && r.field !in fields
                           && forall k :: 0 <= k < |r.errors| ==> ids[k] in fields
    ensures forall k :: 0 <= k < |r.errors| ==> r.errors[k] == !FieldValid(fields, check, ids[k])
  {
    var valid := true;
    var errors: seq<bool> := [];
    for k := 0 to |ids|
      invariant |errors| == k
      invariant forall j :: 0 <= j < k ==> ids[j] in fields
      invariant forall j :: 0 <= j < k ==> errors[j] == !FieldValid(fields, check, ids[j])
      invariant valid <==> forall j :: 0 <= j < k ==> !errors[j]
    {
      match CheckField(fields, check, ids[k])
      case None =>
        return Missing(ids[k], errors);
      case Some(ok) =>
        var next := errors + [!ok];
        assert next[k] == !ok && forall j :: 0 <= j < k ==> next[j] == errors[j];
        errors, valid := next, valid && ok;
    }
    assert valid <==> forall j :: 0 <= j < |ids| ==> FieldValid(fields, check, ids[j]);
    r := Checked(valid, errors);
  }

  /** `validateForm`: the loop over the four required fields; the form is
      valid when all of them are. */
  method ValidateForm(fields: map<string, string>, check: (string, string) -> bool) returns (r: FormCheck)
    ensures r.Checked? <==> forall k :: 0 <= k < |RequiredFields| ==> RequiredFields[k] in fields
    ensures r.Checked? ==> |r.errors| == |RequiredFields|
    ensures r.Checked? ==> (r.valid <==> forall k :: 0 <= k < |RequiredFields| ==> FieldValid(fields, check, RequiredFields[k]))
    ensures r.Missing? ==> |r.errors| < |RequiredFields|
                           && r.field == RequiredFields[|r.errors|]
                           && r.field !in fields
                           && forall k :: 0 <= k < |r.errors| ==> RequiredFields[k] in fields
    ensures forall k :: 0 <= k < |r.errors| ==> r.errors[k] == !FieldValid(fields, check, RequiredFields[k])
  {
    r := ValidateFields(fields, check, RequiredFields);
  }
}
