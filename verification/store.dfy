/** The record store: the repeatable experience and education entry groups
    of the form. An entry is added at the end of its container and removed by
    its own remove button; the store knows entries only by position. */
module RecordStore {
  import opened Resume
  import opened Collector
  import CollectorLaws

  /** `addExperienceEntry`: a group of empty inputs appended at the end. */
  function AddExperienceEntry(inputs: FormInputs): (r: FormInputs)
    ensures |r.experience| == |inputs.experience| + 1
    ensures r.experience[..|inputs.experience|] == inputs.experience
    ensures r.experience[|inputs.experience|] == BlankExperience
    ensures r.fields == inputs.fields && r.education == inputs.education
  {
    inputs.(experience := inputs.experience + [BlankExperience])
  }

  /** `addEducationEntry`: a group of empty inputs appended at the end. */
  function AddEducationEntry(inputs: FormInputs): (r: FormInputs)
    ensures |r.education| == |inputs.education| + 1
    ensures r.education[..|inputs.education|] == inputs.education
    ensures r.education[|inputs.education|] == BlankEducation
    ensures r.fields == inputs.fields && r.experience == inputs.experience
  {
    inputs.(education := inputs.education + [BlankEducation])
  }

  /** The remove button of the experience group at position `i`: exactly that
      group leaves the container, the others keep their relative order. */
  function RemoveExperienceEntry(inputs: FormInputs, i: nat): (r: FormInputs)
    requires i < |inputs.experience|
    ensures |r.experience| == |inputs.experience| - 1
    ensures forall j :: 0 <= j < i ==> r.experience[j] == inputs.experience[j]
    ensures forall j :: i <= j < |r.experience| ==> r.experience[j] == inputs.experience[j + 1]
    ensures r.fields == inputs.fields && r.education == inputs.education
  {
    inputs.(experience := inputs.experience[..i] + inputs.experience[i + 1..])
  }

  /** The remove button of the education group at position `i`. */
  function RemoveEducationEntry(inputs: FormInputs, i: nat): (r: FormInputs)
    requires i < |inputs.education|
    ensures |r.education| == |inputs.education| - 1
    ensures forall j :: 0 <= j < i ==> r.education[j] == inputs.education[j]
    ensures forall j :: i <= j < |r.education| ==> r.education[j] == inputs.education[j + 1]
    ensures r.fields == inputs.fields && r.experience == inputs.experience
  {
    inputs.(education := inputs.education[..i] + inputs.education[i + 1..])
  }

  /** After adding an experience group, collection yields the previous
      records followed by one all-fallback record; nothing else changes. */
  lemma CollectAfterAddExperience(inputs: FormInputs)
    ensures Collect(AddExperienceEntry(inputs)).experience
            == Collect(inputs).experience + [ExperienceFallback]
  {
    var es := inputs.experience;
    assert Collect(AddExperienceEntry(inputs)).experience == CollectExperience(es + [BlankExperience]);
    CollectorLaws.CollectExperienceAppend(es, [BlankExperience]);
    assert CollectExperience([BlankExperience]) == [ExperienceFallback] by {
      CollectorLaws.BlankEntriesCollectToFallbacks();
    }
  }

  /** After adding an education group, collection yields the previous
      records followed by one all-fallback record; nothing else changes. */
  lemma CollectAfterAddEducation(inputs: FormInputs)
    ensures Collect(AddEducationEntry(inputs)).education
            == Collect(inputs).education + [EducationFallback]
  {
    var es := inputs.education;
    assert Collect(AddEducationEntry(inputs)).education == CollectEducation(es + [BlankEducation]);
    CollectorLaws.CollectEducationAppend(es, [BlankEducation]);
    assert CollectEducation([BlankEducation]) == [EducationFallback] by {
      CollectorLaws.BlankEntriesCollectToFallbacks();
    }
  }

  /** Adding an entry group changes nothing in the snapshot but its own
      sequence. */
  lemma AddEntryKeepsRest(inputs: FormInputs)
    ensures var d, d' := Collect(inputs), Collect(AddExperienceEntry(inputs));
            d'.personal == d.personal && d'.education == d.education && d'.skills == d.skills
    ensures var d, d' := Collect(inputs), Collect(AddEducationEntry(inputs));
            d'.personal == d.personal && d'.experience == d.experience && d'.skills == d.skills
  {
  }

  /** After removing experience group `i`, collection yields the previous
      records without the `i`-th one, the rest in their original order. */
  lemma CollectAfterRemoveExperience(inputs: FormInputs, i: nat)
    requires i < |inputs.experience|
    ensures Collect(RemoveExperienceEntry(inputs, i)).experience
            == Collect(inputs).experience[..i] + Collect(inputs).experience[i + 1..]
    ensures Collect(RemoveExperienceEntry(inputs, i)).education == Collect(inputs).education
  {
    var es := inputs.experience;
    CollectorLaws.CollectExperienceAppend(es[..i], es[i + 1..]);
    CollectorLaws.CollectExperienceAppend(es[..i], es[i..]);
    CollectorLaws.CollectExperienceAppend([es[i]], es[i + 1..]);
    assert es == es[..i] + es[i..];
    assert es[i..] == [es[i]] + es[i + 1..];
    var c := CollectExperience(es);
    assert c[..i] == CollectExperience(es[..i]);
    assert c[i + 1..] == CollectExperience(es[i + 1..]);
  }

  /** After removing education group `i`, collection yields the previous
      records without the `i`-th one, the rest in their original order. */
  lemma CollectAfterRemoveEducation(inputs: FormInputs, i: nat)
    requires i < |inputs.education|
    ensures Collect(RemoveEducationEntry(inputs, i)).education
            == Collect(inputs).education[..i] + Collect(inputs).education[i + 1..]
    ensures Collect(RemoveEducationEntry(inputs, i)).experience == Collect(inputs).experience
  {
    var es := inputs.education;
    CollectorLaws.CollectEducationAppend(es[..i], es[i + 1..]);
    CollectorLaws.CollectEducationAppend(es[..i], es[i..]);
    CollectorLaws.CollectEducationAppend([es[i]], es[i + 1..]);
    assert es == es[..i] + es[i..];
    assert es[i..] == [es[i]] + es[i + 1..];
    var c := CollectEducation(es);
    assert c[..i] == CollectEducation(es[..i]);
    assert c[i + 1..] == CollectEducation(es[i + 1..]);
  }

  /** Adding an entry and removing it again restores the inputs. */
  lemma RemoveUndoesAddExperience(inputs: FormInputs)
    ensures RemoveExperienceEntry(AddExperienceEntry(inputs), |inputs.experience|) == inputs
  {
    var r := RemoveExperienceEntry(AddExperienceEntry(inputs), |inputs.experience|);
    assert r.experience == inputs.experience;
  }
}
