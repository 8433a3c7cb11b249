/** Wholesale rendering of the repeatable sections (`updateExperience`,
    `updateEducation`, `updateSkills`): each section's markup is one fragment
    per record, concatenated in order, or a fixed placeholder fragment when the
    sequence is empty. Markup is a plain string here; user text is spliced in
    verbatim, with no escaping, as the page does. The indentation whitespace of
    the page's template literals is not part of the model. */
module Render {
  import opened Resume
  import opened Collector
  import CollectorLaws

  /** `<div class="cls">inner</div>`. */
  function DivClass(cls: string, inner: string): string {
    "<div class=\"" + cls + "\">" + inner + "</div>"
  }

  /** `<div>inner</div>`. */
  function Div(inner: string): string {
    "<div>" + inner + "</div>"
  }

  /** `xs.map(f).join('')`: the fragments of the elements, in order. */
  function MapJoin<T>(xs: seq<T>, f: T -> string): (r: string)
    ensures |xs| == 0 ==> r == ""
    decreases |xs|
  {
    if |xs| == 0 then "" else f(xs[0]) + MapJoin(xs[1..], f)
  }

  /** Joining the fragments of two runs of elements gives the two joins, one
      after the other. */
  lemma {:induction false} MapJoinAppend<T>(a: seq<T>, b: seq<T>, f: T -> string)
    ensures MapJoin(a + b, f) == MapJoin(a, f) + MapJoin(b, f)
    decreases |a|
  {
    if |a| == 0 {
      assert a + b == b;
    } else {
      assert (a + b)[1..] == a[1..] + b;
      MapJoinAppend(a[1..], b, f);
    }
  }

  /** One element renders as its own fragment. */
  lemma MapJoinSingle<T>(x: T, f: T -> string)
    ensures MapJoin([x], f) == f(x)
  {
    assert [x][1..] == [];
  }

  /** The fragment of one experience record. */
  function ExperienceItem(e: Experience): string {
    DivClass("experience-item",
      DivClass("item-header",
        Div(DivClass("item-title", e.title) + DivClass("item-company", e.company))
        + DivClass("item-date", e.startDate + " - " + e.endDate))
      + DivClass("item-description", e.description))
  }

  /** The experience section when there are no records. Its texts are split
      as the fallback literals are, so that they meet those terms unchanged. */
  const ExperiencePlaceholder: string :=
    DivClass("experience-item",
      DivClass("item-header",
        Div(DivClass("item-title", "Job Title") + DivClass("item-company", "Company " + "Name"))
        + DivClass("item-date", "Date Range"))
      + DivClass("item-description", ExperienceFallback.description))

  /** `updateExperience`'s markup: the placeholder for no records, otherwise
      one fragment per record in order. */
  function RenderExperience(es: seq<Experience>): (r: string)
    ensures |es| == 0 ==> r == ExperiencePlaceholder
    ensures |es| > 0 ==> r == MapJoin(es, ExperienceItem)
  {
    if |es| == 0 then ExperiencePlaceholder else MapJoin(es, ExperienceItem)
  }

  /** The title line of an education record: the degree, followed by
      ` in <field>` only when the field is non-empty. */
  function EducationTitle(e: Education): (r: string)
    ensures e.field != "" ==> r == e.degree + " in " + e.field
    ensures e.field == "" ==> r == e.degree
  {
    e.degree + (if e.field != "" then " in " + e.field else "")
  }

  /** The fragment of one education record. */
  function EducationItem(e: Education): string {
    DivClass("education-item",
      DivClass("item-header",
        Div(DivClass("item-title", EducationTitle(e)) + DivClass("item-company", e.school))
        + DivClass("item-date", e.year)))
  }

  /** The education section when there are no records, its texts split as
      the fallback literals and `EducationTitle` build them. */
  const EducationPlaceholder: string :=
    DivClass("education-item",
      DivClass("item-header",
        Div(DivClass("item-title", "Degree" + " in " + "Field") + DivClass("item-company", "School " + "Name"))
        + DivClass("item-date", "Year")))

  /** `updateEducation`'s markup. */
  function RenderEducation(es: seq<Education>): (r: string)
    ensures |es| == 0 ==> r == EducationPlaceholder
    ensures |es| > 0 ==> r == MapJoin(es, EducationItem)
  {
    if |es| == 0 then EducationPlaceholder else MapJoin(es, EducationItem)
  }

  /** The fragment of one skill. */
  function SkillTag(s: string): string {
    "<span class=\"skill-tag\">" + s + "</span>"
  }

  /** `updateSkills`'s markup: an empty list is replaced by the three
      placeholder skills before rendering. */
  function RenderSkills(skills: seq<string>): (r: string)
    ensures |skills| > 0 ==> r == MapJoin(skills, SkillTag)
    ensures |skills| == 0 ==> r == MapJoin(PlaceholderSkills, SkillTag)
  {
    MapJoin(if |skills| == 0 then PlaceholderSkills else skills, SkillTag)
  }

  /** The markup of the three repeatable sections of a snapshot. */
  datatype Sections = Sections(experience: string, education: string, skills: string)

  function RenderSections(d: ResumeData): Sections {
    Sections(RenderExperience(d.experience), RenderEducation(d.education), RenderSkills(d.skills))
  }

  /** Rendering two non-empty runs of records gives the two renderings one
      after the other; with `RenderExperienceSingle` this says the section is
      one item fragment per record, in order. */
  lemma RenderExperienceAppend(a: seq<Experience>, b: seq<Experience>)
    requires |a| > 0 && |b| > 0
    ensures RenderExperience(a + b) == RenderExperience(a) + RenderExperience(b)
  {
    MapJoinAppend(a, b, ExperienceItem);
  }

  lemma RenderExperienceSingle(e: Experience)
    ensures RenderExperience([e]) == ExperienceItem(e)
  {
    MapJoinSingle(e, ExperienceItem);
  }

  lemma RenderEducationAppend(a: seq<Education>, b: seq<Education>)
    requires |a| > 0 && |b| > 0
    ensures RenderEducation(a + b) == RenderEducation(a) + RenderEducation(b)
  {
    MapJoinAppend(a, b, EducationItem);
  }

  lemma RenderEducationSingle(e: Education)
    ensures RenderEducation([e]) == EducationItem(e)
  {
    MapJoinSingle(e, EducationItem);
  }

  lemma RenderSkillsAppend(a: seq<string>, b: seq<string>)
    requires |a| > 0 && |b| > 0
    ensures RenderSkills(a + b) == RenderSkills(a) + RenderSkills(b)
  {
    MapJoinAppend(a, b, SkillTag);
  }

  lemma RenderSkillsSingle(s: string)
    ensures RenderSkills([s]) == SkillTag(s)
  {
    MapJoinSingle(s, SkillTag);
  }

  /** A skills field of only blanks and commas shows the placeholder tags. */
  lemma BlankSkillsFieldShowsPlaceholders(text: string)
    requires forall i :: 0 <= i < |text| ==> CollectorLaws.BlankOrComma(text[i])
    ensures RenderSkills(ParseSkills(text)) == RenderSkills(PlaceholderSkills)
  {
    CollectorLaws.ParseSkillsOfBlanks(text);
  }

  /** On a collected record the field is never empty, so the title is always
      `<degree> in <field>`. */
  lemma CollectedEducationTitle(e: Education)
    ensures EducationTitle(DefaultEducation(e)) == DefaultEducation(e).degree + " in " + DefaultEducation(e).field
  {
  }

  /** No education records look exactly like one freshly added, empty entry. */
  lemma EducationPlaceholderIsBlankEntry()
    ensures RenderEducation([]) == RenderEducation(CollectEducation([BlankEducation]))
  {
    CollectorLaws.BlankEntriesCollectToFallbacks();
    assert CollectEducation([BlankEducation]) == [EducationFallback];
    RenderEducationSingle(EducationFallback);
    assert EducationTitle(EducationFallback) == "Degree" + " in " + "Field";
  }

  /** Unlike education, no experience records do not look like one freshly
      added, empty entry: the placeholder shows `Date Range` where the blank
      entry shows `Start Date - End Date`. */
  lemma ExperiencePlaceholderIsNotBlankEntry()
    ensures RenderExperience([]) != RenderExperience(CollectExperience([BlankExperience]))
  {
    CollectorLaws.BlankEntriesCollectToFallbacks();
    assert CollectExperience([BlankExperience]) == [ExperienceFallback];
    RenderExperienceSingle(ExperienceFallback);
    assert |ExperiencePlaceholder| + 11 == |ExperienceItem(ExperienceFallback)|;
  }
}
