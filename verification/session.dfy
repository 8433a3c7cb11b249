/** The page-level handlers of the record store: the add buttons and the
    remove buttons of the entry groups, acting on the whole page state. */
module Session {
  import opened Resume
  import opened Collector
  import opened RecordStore
  import opened Templates
  import View

  /** `addExperienceEntry`: a click, not an input event, so the new group is
      appended and the preview is left as it was. */
  function AddExperience(page: Page): (r: Page)
    ensures r.inputs == AddExperienceEntry(page.inputs)
    ensures r.nodes == page.nodes && r.data == page.data && r.current == page.current
  {
    page.(inputs := AddExperienceEntry(page.inputs))
  }

  /** `addEducationEntry`, likewise. */
  function AddEducation(page: Page): (r: Page)
    ensures r.inputs == AddEducationEntry(page.inputs)
    ensures r.nodes == page.nodes && r.data == page.data && r.current == page.current
  {
    page.(inputs := AddEducationEntry(page.inputs))
  }

  /** The next refresh after adding an experience group shows one more
      record, carrying every fallback, after the previous ones. */
  lemma RefreshAfterAddExperience(page: Page)
    ensures UpdatePreview(AddExperience(page)).data.experience
            == Collect(page.inputs).experience + [ExperienceFallback]
  {
    CollectAfterAddExperience(page.inputs);
  }

  /** The remove button of experience group `i` as the page wires it: the
      group leaves the form, then the call to refresh the preview names a
      variable the inline handler cannot see and throws, so the preview and
      the stored snapshot keep the removed record. */
  function RemoveExperienceAsWritten(page: Page, i: nat): (r: Page)
    requires i < |page.inputs.experience|
    ensures r.inputs == RemoveExperienceEntry(page.inputs, i)
    ensures r.nodes == page.nodes && r.data == page.data
  {
    page.(inputs := RemoveExperienceEntry(page.inputs, i))
  }

  /** From an up-to-date page, the page's remove button leaves a snapshot
      that no longer matches the form: it still has the removed record. */
  lemma RemoveAsWrittenLeavesStaleSnapshot(page: Page, i: nat)
    requires i < |page.inputs.experience|
    requires page.data == Collect(page.inputs)
    ensures var r := RemoveExperienceAsWritten(page, i);
            |r.data.experience| == |Collect(r.inputs).experience| + 1
  {
  }

  /** The remove button with its refresh taking effect: the group leaves the
      form and the preview is re-collected and re-projected. */
  function RemoveExperience(page: Page, i: nat): (r: Page)
    requires i < |page.inputs.experience|
    ensures r.inputs == RemoveExperienceEntry(page.inputs, i)
    ensures r.data == Collect(r.inputs)
    ensures r.data.experience == Collect(page.inputs).experience[..i] + Collect(page.inputs).experience[i + 1..]
    ensures r.data.education == Collect(page.inputs).education
    ensures r.nodes == View.Project(page.nodes, page.current, r.data)
  {
    CollectAfterRemoveExperience(page.inputs, i);
    UpdatePreview(page.(inputs := RemoveExperienceEntry(page.inputs, i)))
  }

  /** The education remove button as the page wires it. */
  function RemoveEducationAsWritten(page: Page, i: nat): (r: Page)
    requires i < |page.inputs.education|
    ensures r.inputs == RemoveEducationEntry(page.inputs, i)
    ensures r.nodes == page.nodes && r.data == page.data
  {
    page.(inputs := RemoveEducationEntry(page.inputs, i))
  }

  /** The education remove button with its refresh taking effect. */
  function RemoveEducation(page: Page, i: nat): (r: Page)
    requires i < |page.inputs.education|
    ensures r.inputs == RemoveEducationEntry(page.inputs, i)
    ensures r.data == Collect(r.inputs)
    ensures r.data.education == Collect(page.inputs).education[..i] + Collect(page.inputs).education[i + 1..]
    ensures r.data.experience == Collect(page.inputs).experience
    ensures r.nodes == View.Project(page.nodes, page.current, r.data)
  {
    CollectAfterRemoveEducation(page.inputs, i);
    UpdatePreview(page.(inputs := RemoveEducationEntry(page.inputs, i)))
  }

  /** Removing the group just added, with the refresh, gives back the page
      a refresh of the original form would give. */
  lemma RemoveUndoesAdd(page: Page)
    ensures RemoveExperience(AddExperience(page), |page.inputs.experience|) == UpdatePreview(page)
  {
    RemoveUndoesAddExperience(page.inputs);
  }
}
