/** The resume data model and its field schema: the records the collector
    produces, the raw inputs it reads, and the fixed fallback literals. */
module Resume {

  /** The eight personal fields of the form, all plain strings. */
  datatype PersonalInfo = PersonalInfo(
    firstName: string,
    lastName: string,
    jobTitle: string,
    email: string,
    phone: string,
    location: string,
    linkedin: string,
    summary: string)
  {
    /** The value of field `f`. */
    function Get(f: PersonalField): string {
      match f
      case FirstName => firstName
      case LastName => lastName
      case JobTitle => jobTitle
      case Email => email
      case Phone => phone
      case Location => location
      case LinkedIn => linkedin
      case Summary => summary
    }
  }

  /** One experience entry: the five inputs of an `.experience-entry` group, or
      the record collected from them. */
  datatype Experience = Experience(
    title: string,
    company: string,
    startDate: string,
    endDate: string,
    description: string)

  /** One education entry: the four inputs of an `.education-entry` group, or
      the record collected from them. */
  datatype Education = Education(
    degree: string,
    field: string,
    school: string,
    year: string)

  /** The snapshot the collector produces; it replaces the stored one. */
  datatype ResumeData = ResumeData(
    personal: PersonalInfo,
    experience: seq<Experience>,
    education: seq<Education>,
    skills: seq<string>)

  /** What the collector reads: the form's named single-valued fields (as
      `FormData.get` sees them; a name that is absent reads as `null`), and the
      repeatable entry groups in document order. */
  datatype FormInputs = FormInputs(
    fields: map<string, string>,
    experience: seq<Experience>,
    education: seq<Education>)

  /** The personal fields of the schema. */
  datatype PersonalField = FirstName | LastName | JobTitle | Email | Phone | Location | LinkedIn | Summary
  {
    /** The field's form name (`name` attribute and element id). */
    function Name(): string {
      match this
      case FirstName => "firstName"
      case LastName => "lastName"
      case JobTitle => "jobTitle"
      case Email => "email"
      case Phone => "phone"
      case Location => "location"
      case LinkedIn => "linkedin"
      case Summary => "summary"
    }

    /** The literal used when the field's input is empty or absent. The longer
        literals here and below are written as concatenations of short pieces:
        the solver treats a literal as a sequence display, and whole long
        displays make the proofs about these values far more expensive. */
    function Fallback(): (r: string)
      ensures r != ""
    {
      match this
      case FirstName => "John"
      case LastName => "Doe"
      case JobTitle => "Professional " + "Title"
      case Email => "john.doe" + "@example.com"
      case Phone => "(555) " + "123-4567"
      case Location => "City, State"
      case LinkedIn => "LinkedIn " + "Profile"
      case Summary =>
        "Experienced " + "professional " + "with a strong " + "background " + "in delivering "
        + "high-quality " + "results " + "and driving " + "organizational " + "success."
    }
  }

  /** Per-field fallbacks of an experience entry. */
  const ExperienceFallback: Experience := Experience(
    "Job Title", "Company " + "Name", "Start Date", "End Date",
    "Job description " + "and key " + "achievements " + "will appear here.")

  /** Per-field fallbacks of an education entry. */
  const EducationFallback: Education := Education("Degree", "Field", "School " + "Name", "Year")

  /** The skills text used when the skills field is empty or absent, written
      piece by piece around its commas so that its split is visible. */
  const SkillsFallbackText: string := "Skill 1" + "," + ((" " + "Skill 2") + "," + (" " + "Skill 3"))

  /** The skill tags shown when the skill list is empty. */
  const PlaceholderSkills: seq<string> := ["Skill 1", "Skill 2", "Skill 3"]

  /** The inputs of a freshly added entry group: every input starts empty. */
  const BlankExperience: Experience := Experience("", "", "", "", "")
  const BlankEducation: Education := Education("", "", "", "")
}
