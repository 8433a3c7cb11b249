/** The model collector (`collectFormData`): reads every input into one
    snapshot, substituting a fixed fallback for each empty input. */
module Collector {
  import opened Optional
  import opened Text
  import opened Resume

  /** `FormData.get(name)`: the field's value, or `null` when the form has no
      field of that name. */
  function FormGet(fields: map<string, string>, name: string): (r: Option<string>)
    ensures r.Some? <==> name in fields
    ensures r.Some? ==> r.value == fields[name]
  {
    if name in fields then Some(fields[name]) else None
  }

  /** The form holds a non-empty value for `name` (the only case in which
      `formData.get(name) || fallback` keeps the input). */
  predicate Filled(fields: map<string, string>, name: string) {
    name in fields && fields[name] != ""
  }

  /** `formData.get(name) || fallback`: `null` and `""` are both falsy. */
  function FieldOr(fields: map<string, string>, name: string, fallback: string): (r: string)
    ensures Filled(fields, name) ==> r == fields[name]
    ensures !Filled(fields, name) ==> r == fallback
  {
    match FormGet(fields, name)
    case Some(v) => Or(v, fallback)
    case None => fallback
  }

  function PersonalValue(fields: map<string, string>, f: PersonalField): (r: string)
    ensures r != ""
    ensures Filled(fields, f.Name()) ==> r == fields[f.Name()]
    ensures !Filled(fields, f.Name()) ==> r == f.Fallback()
  {
    FieldOr(fields, f.Name(), f.Fallback())
  }

  /** The personal part of the snapshot: every field is non-empty, equal to its
      input when that input is a non-empty string (blank strings included, as
      nothing is trimmed), and to its fixed fallback otherwise. */
  function CollectPersonal(fields: map<string, string>): (p: PersonalInfo)
    ensures forall f: PersonalField :: p.Get(f) != ""
  {
    var p := PersonalInfo(
      PersonalValue(fields, FirstName),
      PersonalValue(fields, LastName),
      PersonalValue(fields, JobTitle),
      PersonalValue(fields, Email),
      PersonalValue(fields, Phone),
      PersonalValue(fields, Location),
      PersonalValue(fields, LinkedIn),
      PersonalValue(fields, Summary));
    p
  }

  /** The fallback law of one personal field: the collected value is the
      input when that is a non-empty string (a blank one included, as nothing
      is trimmed), and the field's fixed fallback when the input is empty or
      absent. */
  lemma PersonalFallbackLaw(fields: map<string, string>, f: PersonalField)
    ensures Filled(fields, f.Name()) ==> CollectPersonal(fields).Get(f) == fields[f.Name()]
    ensures !Filled(fields, f.Name()) ==> CollectPersonal(fields).Get(f) == f.Fallback()
  {
    assert CollectPersonal(fields).Get(f) == PersonalValue(fields, f);
  }

  /** Every field of an experience record is non-empty. */
  predicate ExperienceComplete(e: Experience) {
    e.title != "" && e.company != "" && e.startDate != "" && e.endDate != "" && e.description != ""
  }

  /** Every field of an education record is non-empty. */
  predicate EducationComplete(e: Education) {
    e.degree != "" && e.field != "" && e.school != "" && e.year != ""
  }

  /** One experience entry's record: each input kept when non-empty, otherwise
      its own fallback, independently of the other inputs. */
  function DefaultExperience(e: Experience): (r: Experience)
    ensures ExperienceComplete(r)
    ensures e.title != "" ==> r.title == e.title
    ensures e.company != "" ==> r.company == e.company
    ensures e.startDate != "" ==> r.startDate == e.startDate
    ensures e.endDate != "" ==> r.endDate == e.endDate
    ensures e.description != "" ==> r.description == e.description
    ensures e.title == "" ==> r.title == ExperienceFallback.title
    ensures e.company == "" ==> r.company == ExperienceFallback.company
    ensures e.startDate == "" ==> r.startDate == ExperienceFallback.startDate
    ensures e.endDate == "" ==> r.endDate == ExperienceFallback.endDate
    ensures e.description == "" ==> r.description == ExperienceFallback.description
  {
    Experience(
      Or(e.title, ExperienceFallback.title),
      Or(e.company, ExperienceFallback.company),
      Or(e.startDate, ExperienceFallback.startDate),
      Or(e.endDate, ExperienceFallback.endDate),
      Or(e.description, ExperienceFallback.description))
  }

  /** One education entry's record, defaulted field by field. */
  function DefaultEducation(e: Education): (r: Education)
    ensures EducationComplete(r)
    ensures e.degree != "" ==> r.degree == e.degree
    ensures e.field != "" ==> r.field == e.field
    ensures e.school != "" ==> r.school == e.school
    ensures e.year != "" ==> r.year == e.year
    ensures e.degree == "" ==> r.degree == EducationFallback.degree
    ensures e.field == "" ==> r.field == EducationFallback.field
    ensures e.school == "" ==> r.school == EducationFallback.school
    ensures e.year == "" ==> r.year == EducationFallback.year
  {
    Education(
      Or(e.degree, EducationFallback.degree),
      Or(e.field, EducationFallback.field),
      Or(e.school, EducationFallback.school),
      Or(e.year, EducationFallback.year))
  }

  /** The experience records: exactly one per entry group, in document order. */
  function CollectExperience(entries: seq<Experience>): (r: seq<Experience>)
    ensures |r| == |entries|
    ensures forall i :: 0 <= i < |r| ==> r[i] == DefaultExperience(entries[i])
    decreases |entries|
  {
    if |entries| == 0 then []
    else [DefaultExperience(entries[0])] + CollectExperience(entries[1..])
  }

  /** The education records: exactly one per entry group, in document order. */
  function CollectEducation(entries: seq<Education>): (r: seq<Education>)
    ensures |r| == |entries|
    ensures forall i :: 0 <= i < |r| ==> r[i] == DefaultEducation(entries[i])
    decreases |entries|
  {
    if |entries| == 0 then []
    else [DefaultEducation(entries[0])] + CollectEducation(entries[1..])
  }

  /** `.map(skill => skill.trim()).filter(skill => skill)` over split pieces. */
  function TrimmedNonEmpty(pieces: seq<string>): (r: seq<string>)
    ensures |r| <= |pieces|
    ensures forall i :: 0 <= i < |r| ==> r[i] != "" && IsTrimmed(r[i])
    decreases |pieces|
  {
    if |pieces| == 0 then []
    else
      var t, rest := Trim(pieces[0]), TrimmedNonEmpty(pieces[1..]);
      if t == "" then rest
      else
        var r := [t] + rest;
        assert r[0] == t && forall i :: 1 <= i < |r| ==> r[i] == rest[i - 1];
        r
  }

  /** Trimming and filtering comma-free pieces leaves comma-free skills. */
  lemma {:induction false} TrimmedNonEmptyCommaFree(pieces: seq<string>)
    requires forall i :: 0 <= i < |pieces| ==> ',' !in pieces[i]
    ensures forall i :: 0 <= i < |TrimmedNonEmpty(pieces)| ==> ',' !in TrimmedNonEmpty(pieces)[i]
    decreases |pieces|
  {
    if |pieces| > 0 {
      var t, rest := Trim(pieces[0]), TrimmedNonEmpty(pieces[1..]);
      assert ',' !in t by {
        assert ',' !in pieces[0];
        TrimNoNewChars(pieces[0]);
      }
      assert forall i :: 0 <= i < |pieces[1..]| ==> ',' !in pieces[1..][i] by {
        forall i | 0 <= i < |pieces[1..]|
          ensures ',' !in pieces[1..][i]
        {
          assert pieces[1..][i] == pieces[i + 1];
        }
      }
      TrimmedNonEmptyCommaFree(pieces[1..]);
      if t != "" {
        var r := [t] + rest;
        assert r == TrimmedNonEmpty(pieces);
        assert forall i :: 1 <= i < |r| ==> r[i] == rest[i - 1];
      }
    }
  }

  /** The skill list of a skills text: its comma-separated pieces, trimmed,
      empty ones dropped, order and duplicates kept. It has no empty, untrimmed
      or comma-holding element and at most one element per piece. */
  function ParseSkills(text: string): (r: seq<string>)
    ensures forall i :: 0 <= i < |r| ==> r[i] != "" && IsTrimmed(r[i]) && ',' !in r[i]
    ensures |r| <= Count(text, ',') + 1
  {
    TrimmedNonEmptyCommaFree(Split(text, ','));
    TrimmedNonEmpty(Split(text, ','))
  }

  /** The text the skill list is parsed from: the skills field, or the fixed
      fallback text when it is empty or absent. */
  function SkillsText(fields: map<string, string>): string {
    FieldOr(fields, "skills", SkillsFallbackText)
  }

  /** What every collected snapshot satisfies: no empty personal field, no
      empty entry field, no empty or untrimmed skill. */
  predicate Complete(d: ResumeData) {
    && (forall f: PersonalField :: d.personal.Get(f) != "")
    && (forall i :: 0 <= i < |d.experience| ==> ExperienceComplete(d.experience[i]))
    && (forall i :: 0 <= i < |d.education| ==> EducationComplete(d.education[i]))
    && (forall i :: 0 <= i < |d.skills| ==> d.skills[i] != "" && IsTrimmed(d.skills[i]))
  }

  /** `collectFormData`: the whole snapshot, complete, with one record per
      entry group. */
  function Collect(inputs: FormInputs): (d: ResumeData)
    ensures Complete(d)
    ensures |d.experience| == |inputs.experience| && |d.education| == |inputs.education|
  {
    ResumeData(
      CollectPersonal(inputs.fields),
      CollectExperience(inputs.experience),
      CollectEducation(inputs.education),
      ParseSkills(SkillsText(inputs.fields)))
  }
}
