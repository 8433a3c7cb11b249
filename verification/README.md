# ResumeCraft resume builder — a Dafny model of its core

ResumeCraft is a single-page resume builder. A form holds personal fields, any number of experience and education entry groups, and a comma-separated skills field. On every input event the page collects the form into a snapshot (`collectFormData`). It then projects the snapshot onto the binding elements of the active resume template (`updatePreview` with `updateContactInfo`, `updateExperience`, `updateEducation` and `updateSkills`). The user can switch templates (`switchTemplate`), add and remove entry groups, validate the required fields (`validateField`, `validateForm`), and export the visible template to a PDF file (`downloadPDF`).

This project models that logic in Dafny and proves its properties:

- `Optional`, `Text`: `Option`, plus the JavaScript string operations the page relies on (`||` on strings, `trim`, `split`). `Text.Join` exists only to state the round trip of `split`; the page's `map(..).join('')` is `Render.MapJoin`.
- `Resume`: the data model (personal info, experience and education records, skills), the raw form inputs and the fallback literals.
- `Collector`, `CollectorLaws`: collection with its per-field fallbacks and skills parsing, and its laws.
- `RecordStore`: adding and removing entry groups as sequence operations.
- `Dom`: the document as a map from element id to (content, display), and guarded writes that do nothing when the id is absent.
- `Render`: the section markup, one fragment per record or a placeholder.
- `View`, `ViewLaws`: the projection as an ordered list of guarded writes under the template's id prefix, and its laws. The laws cover idempotence, which element ends up holding what, and which elements are never touched.
- `Templates`: the page state, `updatePreview` and `switchTemplate`. A switch that throws half-way keeps the changes made before the throw.
- `Validation`: the required-field checks. The browser's constraint check is a parameter.
- `Export`: choosing the template root to capture, the file name, and the busy indicator and off-screen container around the rasterizer. The rasterizer's outcome is a parameter.
- `Session`: the add and remove buttons acting on the whole page.

The model follows the code as written:

- Personal and entry fallbacks use JavaScript `||` without trimming. A value of only spaces is kept, and only the empty string (or an absent field) is replaced.
- The projection writes only to the ids of the active template (prefix `""` for `modern`, `<name>-` otherwise). It never writes to shared, unprefixed ids on behalf of another template.
- Export captures the LAST root whose display is not `none`, falling back to the first root.
- The file name's `Resume` fallback can never apply. `downloadPDF` refreshes the preview first, and collection never leaves a first or last name empty. An empty first name with last name `Lee` gives `John_Lee.pdf`.
- Removing an entry group does not refresh the preview (see Findings).
- On a rasterizer failure the off-screen container is not removed (see Findings).

## Model

| member | source | states |
|---|---|---|
| Text.Or | index.js:349-356 | `s \|\| fallback` on strings keeps every non-empty string, including a blank one, and replaces only `""` |
| Text.Trim | index.js:388 | `trim()` leaves no ECMAScript whitespace at either end and never lengthens the text |
| Text.TrimIsInfix | index.js:388 | the trimmed text is a contiguous slice of the input, and everything cut off on either side is whitespace |
| Text.TrimEmptyIffBlank | index.js:234 | the trimmed value is empty exactly when every character is ECMAScript whitespace |
| Text.Split | index.js:388 | `split(',')` yields one piece more than there are commas, and no piece holds a comma |
| Text.SplitAppend | index.js:388 | the pieces of `a,b` are the pieces of `a` followed by the pieces of `b` |
| Text.SplitJoin | index.js:388 | splitting a comma-join of comma-free pieces recovers the pieces |
| Text.JoinSplit | index.js:388 | splitting on a separator and joining back gives the original text, so no character is lost by `split(',')` |
| Collector.FieldOr | index.js:349 | `formData.get(name) \|\| fallback`: the input when present and non-empty, the fallback when absent or empty |
| Collector.PersonalValue | index.js:349-356 | a collected personal field is never empty and is the input or the field's own fallback literal |
| Collector.CollectPersonal | index.js:348-357 | no field of the collected personal record is empty |
| Collector.PersonalFallbackLaw | index.js:349-356 | per field: the collected value is the input when it is a non-empty string and the fixed fallback otherwise |
| Collector.DefaultExperience | index.js:365-371 | the record is complete; each field keeps its input when that is non-empty and otherwise takes its own `ExperienceFallback` literal, independently of the other fields |
| Collector.DefaultEducation | index.js:377-382 | the record is complete; each field keeps its input when that is non-empty and otherwise takes its own `EducationFallback` literal, independently of the other fields |
| Collector.CollectExperience | index.js:364-373 | exactly one record per entry group, in document order, each one that group's defaulted inputs |
| Collector.CollectEducation | index.js:376-384 | exactly one record per entry group, in document order |
| Collector.TrimmedNonEmpty | index.js:388 | trim then drop empties: no element is empty or untrimmed, and there are no more elements than pieces |
| Collector.ParseSkills | index.js:387-388 | every skill is non-empty, trimmed and comma-free, and there is at most one skill per comma-separated piece |
| Collector.Collect | index.js:345-391 | the snapshot is complete (no empty field or skill), with one record per entry group |
| CollectorLaws.BlankPersonalInputKept | index.js:349-356 | an input of two spaces is kept as it is, not replaced by the fallback |
| CollectorLaws.DefaultExperienceIdempotent | index.js:365-371 | defaulting an already-defaulted record changes nothing |
| CollectorLaws.BlankEntriesCollectToFallbacks | index.js:366-381 | a freshly added, empty group collects to exactly the fallback record |
| CollectorLaws.CollectExperienceIdempotent | index.js:364-373 | collecting already-collected records changes nothing |
| CollectorLaws.CollectExperienceAppend | index.js:364-373 | collection distributes over concatenation of entry groups |
| CollectorLaws.CollectEducationAppend | index.js:376-384 | collection distributes over concatenation of entry groups |
| CollectorLaws.TrimmedNonEmptyAppend | index.js:388 | trim-and-filter distributes over concatenation of pieces |
| CollectorLaws.ParseSkillsAppend | index.js:388 | the skills of `a,b` are the skills of `a` followed by those of `b` |
| CollectorLaws.ParseSkillsPiece | index.js:388 | a comma-free text yields its trimmed self, or nothing when blank |
| CollectorLaws.ParseSkillsOfBlanks | index.js:387-388 | a text of only whitespace and commas yields no skills |
| CollectorLaws.ParseThreeWords | index.js:388 | `a, b, c` parses to `[a, b, c]` |
| CollectorLaws.FallbackTextYieldsPlaceholders | index.js:387-388 | the fallback skills text parses to `Skill 1`, `Skill 2`, `Skill 3` |
| CollectorLaws.EmptySkillsFieldYieldsPlaceholders | index.js:387-388 | an empty or absent skills field yields the three placeholder skills |
| CollectorLaws.ParseSkillsKeepsDuplicates | index.js:388 | duplicate skills are kept, not merged |
| RecordStore.AddExperienceEntry | index.js:277-310 | one empty group is appended at the end; the existing groups and the rest of the form are unchanged |
| RecordStore.AddEducationEntry | index.js:312-342 | one empty group is appended at the end; the rest is unchanged |
| RecordStore.RemoveExperienceEntry | index.js:305 | exactly the clicked group leaves; the others keep their relative order |
| RecordStore.RemoveEducationEntry | index.js:337 | exactly the clicked group leaves; the others keep their relative order |
| RecordStore.CollectAfterAddExperience | index.js:277-310 | after an add, collection gives the old records followed by one all-fallback record |
| RecordStore.CollectAfterAddEducation | index.js:312-342 | after an add, collection gives the old records followed by one all-fallback record |
| RecordStore.AddEntryKeepsRest | index.js:277-342 | adding a group changes no other part of the snapshot |
| RecordStore.CollectAfterRemoveExperience | index.js:305 | after removing group `i`, collection gives the old records without the `i`-th, in order |
| RecordStore.CollectAfterRemoveEducation | index.js:337 | after removing group `i`, collection gives the old records without the `i`-th, in order |
| RecordStore.RemoveUndoesAddExperience | index.js:277-310 | removing the group just added restores the form |
| Dom.ApplyWrite | index.js:398-399 | a guarded write changes only the addressed field of the addressed element, and does nothing when the id is absent |
| Dom.ApplyAllFinal | index.js:393-431 | after a run of writes, each field holds the last value written to it, or its old value |
| Dom.ApplyAllIdempotent | index.js:393-431 | performing the same writes twice is performing them once |
| Render.MapJoinAppend | index.js:474-485 | `map(f).join('')` of a concatenation is the concatenation of the joins |
| Render.RenderExperience | index.js:452-486 | no records render as the fixed placeholder (`Job Title`, `Date Range`); a non-empty list renders as the join of the item fragments |
| Render.EducationTitle | index.js:511 | the title is `<degree> in <field>` when the field is non-empty, and just the degree otherwise |
| Render.RenderEducation | index.js:488-518 | no records render as the fixed placeholder (`Degree in Field`); a non-empty list renders as the join of the item fragments |
| Render.RenderSkills | index.js:520-531 | an empty list renders as the tags of the three placeholder skills; a non-empty list as the join of its own tags |
| Render.RenderExperienceAppend | index.js:474-485 | the section of two runs of records is the two sections one after the other |
| Render.RenderExperienceSingle | index.js:474-485 | one record renders as exactly its item fragment; with the append law, the section is one fragment per record, in order |
| Render.RenderEducationAppend | index.js:507-517 | the section of two runs of records is the two sections one after the other |
| Render.RenderEducationSingle | index.js:507-517 | one record renders as exactly its item fragment, so the section is one fragment per record, in order |
| Render.RenderSkillsAppend | index.js:528-530 | the tags of two runs of skills are the two tag runs one after the other |
| Render.RenderSkillsSingle | index.js:528-530 | one skill renders as exactly its `skill-tag` span, so the list is one tag per skill, in order |
| Render.BlankSkillsFieldShowsPlaceholders | index.js:524-530 | a skills field of only blanks and commas shows the placeholder tags |
| Render.EducationPlaceholderIsBlankEntry | index.js:493-503 | the empty-education placeholder is exactly the rendering of one freshly added, empty group |
| Render.ExperiencePlaceholderIsNotBlankEntry | index.js:457-470 | the empty-experience placeholder differs from the rendering of one empty group (`Date Range` against `Start Date - End Date`) |
| View.TemplatePrefix | index.js:395 | the prefix is empty exactly for `modern`, and `<name>-` for every other template |
| View.PrefixInjective | index.js:395 | distinct templates have distinct prefixes |
| View.Lookup | index.js:442-443 | `getElementById(first) \|\| getElementById(second)`: the first id when present, else the second, else nothing |
| View.ContactDisplay | index.js:447 | a contact row shows (`flex`) exactly when its value is non-empty and is not the field id |
| View.ContactWrites | index.js:441-449 | a contact is written (value, then row display) exactly when both its value node and its row wrapper exist, and only under its own ids |
| View.SectionWrites | index.js:453-454 | a section writes its markup exactly once when either container exists and not at all otherwise, into `preview-<name>` when that exists and into `<name>` only when it does not |
| ViewLaws.ProjectIdempotent | index.js:393-431 | projecting the same snapshot twice is projecting it once |
| ViewLaws.SyncShowsField | index.js:398-418 | each existing name, title and summary binding holds the full name, the job title or the summary |
| ViewLaws.SyncShowsContact | index.js:441-449 | when both contact elements exist, the value node holds the value and the row display follows the visibility rule |
| ViewLaws.SyncSkipsContact | index.js:445 | when either contact element is missing, none of that contact's elements changes |
| ViewLaws.SyncShowsSection | index.js:452-531 | each existing section container holds that section's markup |
| ViewLaws.ProjectShowsSections | index.js:420-427 | the projection puts the experience, education and skills renderings into their containers |
| ViewLaws.SyncOnlyTouchesBindings | index.js:393-431 | an element whose id is not one of the active template's binding ids keeps its content and display |
| ViewLaws.ProjectLeavesOtherIds | index.js:395 | under a prefixed template, no element outside that prefix (another template's bindings among them) changes |
| ViewLaws.ContactFallbackIsNotId | index.js:352-355 | no contact fallback literal equals its field id |
| ViewLaws.CollectedContactHidden | index.js:447 | after collection a contact row is hidden exactly when the user typed the field's own id into it |
| Templates.UpdatePreview | index.js:393-431 | the stored snapshot is the freshly collected one and the binding elements are its projection onto the current template |
| Templates.UpdatePreviewIdempotent | index.js:393-431 | refreshing twice in a row is refreshing once |
| Templates.FirstIndexOf | index.js:264 | the first match in document order, or none when nothing matches |
| Templates.SelectButton | index.js:261-264 | after a switch finds button `i`, exactly that button is active and no button is added or renamed |
| Templates.ShowRoot | index.js:267-272 | after a switch finds root `j`, exactly that root is visible, as a block |
| Templates.SwitchTemplate | index.js:259-275 | completes exactly when a button and a root of that name exist, and then leaves one active button, one visible root, the template current and the preview refreshed; otherwise it reports no button exactly when no button has the name, leaving the page with only its buttons cleared; and with a button but no root it reports no root, leaving the page with that button marked and every root hidden, nothing else changed |
| Templates.SwitchIdempotent | index.js:259-275 | switching again to the template just switched to changes nothing |
| Validation.ValidateField | index.js:232-243 | valid exactly when the constraint check passes and the value is not all whitespace |
| Validation.CheckField | index.js:250-251 | a missing element gives no verdict; a present one gives exactly its field's validity |
| Validation.ValidateFields | index.js:249-254 | the loop over any id list marks every field in order with no short-circuit; it completes exactly when every element exists, and the verdict holds exactly when every field is valid; a missing element stops it after the fields before it were marked |
| Validation.ValidateForm | index.js:245-257 | every required field is validated in order, with no short-circuit, and each gets its error state; the form is valid exactly when all four are; a missing field throws after the earlier fields were marked |
| Export.SelectExport | index.js:37-43 | the captured root is the last visible one, else the first root, else none |
| Export.SelectExportTemplate | index.js:37-43 | the single forward pass with a replace-on-visible choice selects that same root |
| Export.ExportFollowsSwitch | index.js:37-43 | after a completed switch the export captures the switched-to root |
| Export.ExportAfterMissingRoot | index.js:37-43 | after a switch that threw for want of a root, the export falls back to the first root |
| Export.ExportFilename | index.js:140 | `<first>_<last>.pdf` in each of the four cases, with `Resume` standing in for whichever of the two names is empty |
| Export.FilenameAfterCollect | index.js:140 | after the refresh that opens the export, the file name is built from the collected names, so the `Resume` fallback never applies |
| Export.FilenameOfEmptyFirstName | index.js:140 | an empty first name and last name `Lee` export as `John_Lee.pdf` |
| Export.DownloadPdf | index.js:29-169 | the preview is refreshed first; the busy indicator is always cleared; the notice is shown exactly when no file was saved; a file is saved exactly when a root exists and the rasterizer succeeds, and then it captures the selected root under the computed name; the container stays mounted exactly when a root exists and the rasterizer fails |
| Export.FailedExportLeavesContainer | index.js:165-168 | a failed rasterization leaves the off-screen container mounted |
| Export.DownloadPdfWithCleanup | index.js:160-168 | with cleanup on the failure path, no container is ever left mounted and all other outcomes are unchanged |
| Export.CleanupChangesOnlyContainer | index.js:160-168 | the cleaned-up export differs from the page's export only in the container |
| Session.AddExperience | index.js:186-188 | the add button appends a group and leaves the preview and snapshot as they were |
| Session.AddEducation | index.js:190-192 | the add button appends a group and leaves the preview and snapshot as they were |
| Session.RefreshAfterAddExperience | index.js:277-310 | the next refresh after an add shows one more, all-fallback record after the previous ones |
| Session.RemoveExperienceAsWritten | index.js:305 | the group leaves the form; the preview and the snapshot keep the removed record |
| Session.RemoveAsWrittenLeavesStaleSnapshot | index.js:305 | from an up-to-date page, a removal leaves a snapshot with one record more than the form |
| Session.RemoveExperience | index.js:305 | with the refresh taking effect, the snapshot is re-collected without the removed record, the others in order, and re-projected |
| Session.RemoveEducationAsWritten | index.js:337 | the group leaves the form; the preview and the snapshot keep the removed record |
| Session.RemoveEducation | index.js:337 | with the refresh taking effect, the snapshot is re-collected without the removed record and re-projected |
| Session.RemoveUndoesAdd | index.js:305 | adding a group and removing it again, with the refresh, gives the page a plain refresh would give |

## Left out

- Stylesheet extraction and `fetch` of `style.css`, the off-screen document's markup and font links, the 500 ms settle delay, and the rasterizer's configuration (margins, scale, A4): these are I/O and timers. The rasterizer's success or failure is a parameter.
- AOS initialisation, smooth scrolling, the mobile menu and `loadSampleData`: page decoration and demo content, with no bearing on the resume logic.
- Event wiring (input events, blur, clicks): each handler is a separate function here. The event loop, re-entrancy and a second export started while one is in flight are not modelled.
- HTML parsing: markup is a plain string. User text is spliced in without escaping, as the page does. The indentation whitespace inside the page's template literals is not part of the rendered strings.
- `getComputedStyle(template).display` is modelled as each root's display string. `switchTemplate` sets it inline. Before any switch, the stylesheet's computed display is an input.
- Page.roots stands for both `.resume-template` lists the page reads: the one inside `#resumePreview` that the export scans (index.js:37, 43) and the document-wide one the switch hides (index.js:267). Every template root is assumed to sit inside `#resumePreview`; a root outside it would be hidden by a switch but never exported, and Export.ExportFollowsSwitch relies on the two lists being the same.
- `getElementById('template-<name>')` is searched among the template roots only. An unrelated element carrying that id is not modelled.
- The `[data-template="<name>"]` selector is modelled as string equality over the template buttons: `document.querySelector` takes the first matching element anywhere in the document, and that element is assumed to be a template button. A name that makes the selector invalid, and the `dataset.template` of a click on a child element, are not modelled.
- `checkValidity` (which knows each input's type and attributes) is a parameter taking the field name and value.
- Validation.ValidateForm: assumes every field sits inside a `.form-group`. A missing group, where `closest` yields null, is not modelled.
- Form values are read from one map of field values, keyed by name; the page uses the same string as id and name for the required fields.
- Strings are sequences of Unicode scalar values, not UTF-16 code units. `trim` uses the ECMAScript whitespace set.
- The stored snapshot's initial `personal: {}` has undefined fields, modelled as empty strings.
- View.Project and ViewLaws.SyncShowsField: under `modern` the prefix is empty, so the unprefixed binding ids (`summary` at index.js:417-418, the second-choice contact ids `email`, `phone`, `location`, `linkedin` at index.js:442, and `skills` at index.js:520) are also the ids of the form's own controls (index.js:538-543). The model keeps the form's inputs and the bound elements apart. A refresh that writes `textContent` into a form control, and so replaces an unedited control's value, is not modelled.
- View.Project and View.Sync: their own contracts state only that the set of element ids is kept. What each element ends up holding is stated by the `ViewLaws` lemmas.

## Findings

| source | as written | input that shows it | evidently intended | confidence | as-written member | corrected member |
|---|---|---|---|---|---|---|
| index.js:305 | the remove button's inline handler removes the group and then calls `resumeBuilder.updatePreview()`. `resumeBuilder` is a `const` local to the load callback (index.js:587), which an inline handler cannot see, so the call throws and the preview keeps the removed record | a page with one experience group whose remove button is clicked | the group is removed and the preview re-collected and re-projected, as for every other edit | not executed; high, unless the page markup defines a global of that name | Session.RemoveExperienceAsWritten | Session.RemoveExperience |
| index.js:165-168 | the failure path clears the busy indicator and shows the notice but never removes the off-screen container that the success path removes (index.js:162) | any page with a template root, with the rasterizer rejecting | the container is removed on both paths | not executed; medium | Export.DownloadPdf | Export.DownloadPdfWithCleanup |

The same removal defect affects the education remove button (index.js:337): Session.RemoveEducationAsWritten as written, and Session.RemoveEducation corrected.
