/** The view synchronizer (`updatePreview`, `updateContactInfo` and the
    section updaters): projects a collected snapshot onto the binding points of
    the active template. A binding point is the element whose id is the
    template's namespace prefix followed by a logical name; a binding point the
    template does not define is skipped. The projection is a list of guarded
    writes computed from the ids present, then performed in order. */
module View {
  import opened Optional
  import opened Resume
  import opened Dom
  import opened Render

  /** The namespace prefix of a template's binding ids: empty for the default
      `modern` template, `<name>-` for every other one. */
  function TemplatePrefix(template: string): (p: string)
    ensures template == "modern" <==> p == ""
    ensures template != "modern" ==> p == template + "-"
  {
    if template == "modern" then "" else template + "-"
  }

  /** Distinct templates have distinct prefixes. */
  lemma PrefixInjective(a: string, b: string)
    requires TemplatePrefix(a) == TemplatePrefix(b)
    ensures a == b
  {
    if a != "modern" && b != "modern" {
      var p := TemplatePrefix(a);
      assert a == p[..|p| - 1] && b == p[..|p| - 1];
    }
  }

  /** `getElementById(first) || getElementById(second)`. */
  function Lookup(keys: set<string>, first: string, second: string): (r: Option<string>)
    ensures r.Some? <==> first in keys || second in keys
    ensures first in keys ==> r == Some(first)
    ensures first !in keys && second in keys ==> r == Some(second)
  {
    if first in keys then Some(first) else if second in keys then Some(second) else None
  }

  /** The visibility of a contact row: shown (`flex`) exactly when its value is
      non-empty and is not the literal field id; hidden (`none`) otherwise. */
  function ContactDisplay(value: string, id: string): (r: string)
    ensures r == "flex" <==> value != "" && value != id
    ensures r == "none" <==> !(value != "" && value != id)
  {
    if value != "" && value != id then "flex" else "none"
  }

  /** The contact fields, in the order they are projected. */
  const ContactFields: seq<PersonalField> := [Email, Phone, Location, LinkedIn]

  /** The value node of contact `c`: `<prefix>preview-<id>`, else `<prefix><id>`. */
  function ContactNode(keys: set<string>, prefix: string, c: PersonalField): Option<string> {
    Lookup(keys, prefix + ("preview-" + c.Name()), prefix + c.Name())
  }

  /** The row wrapper of contact `c`: `<prefix>preview-<id>-contact`, else
      `<prefix><id>-contact`. */
  function ContactRow(keys: set<string>, prefix: string, c: PersonalField): Option<string> {
    Lookup(keys, prefix + ("preview-" + c.Name() + "-contact"), prefix + (c.Name() + "-contact"))
  }

  /** The ids contact `c` may be written under. */
  function ContactIds(prefix: string, c: PersonalField): set<string> {
    { prefix + ("preview-" + c.Name()), prefix + c.Name(),
      prefix + ("preview-" + c.Name() + "-contact"), prefix + (c.Name() + "-contact") }
  }

  /** One contact's writes: its value and its row visibility, and nothing at
      all unless both the value node and the row wrapper exist. */
  function ContactWrites(keys: set<string>, prefix: string, personal: PersonalInfo, c: PersonalField): (r: seq<Write>)
    ensures |r| == 0 || |r| == 2
    ensures |r| == 2 <==> ContactNode(keys, prefix, c).Some? && ContactRow(keys, prefix, c).Some?
    ensures forall w | w in r :: w.id in ContactIds(prefix, c)
    ensures |r| == 2 ==> r[0] == SetContent(ContactNode(keys, prefix, c).value, personal.Get(c))
                         && r[1] == SetDisplay(ContactRow(keys, prefix, c).value, ContactDisplay(personal.Get(c), c.Name()))
  {
    match (ContactNode(keys, prefix, c), ContactRow(keys, prefix, c))
    case (Some(node), Some(row)) =>
      [SetContent(node, personal.Get(c)), SetDisplay(row, ContactDisplay(personal.Get(c), c.Name()))]
    case _ => []
  }

  /** `updateContactInfo`: the four contacts, in order. */
  function ContactsWrites(keys: set<string>, prefix: string, personal: PersonalInfo): seq<Write> {
    ContactWrites(keys, prefix, personal, Email)
    + ContactWrites(keys, prefix, personal, Phone)
    + ContactWrites(keys, prefix, personal, Location)
    + ContactWrites(keys, prefix, personal, LinkedIn)
  }

  /** A section's write: the whole markup into `<prefix>preview-<name>`, else
      `<prefix><name>`, and nothing when the template has neither. */
  function SectionWrites(keys: set<string>, prefix: string, name: string, markup: string): (r: seq<Write>)
    ensures |r| <= 1
    ensures forall w | w in r :: w.SetContent? && (w.id == prefix + ("preview-" + name) || w.id == prefix + name)
    ensures |r| == 1 <==> prefix + ("preview-" + name) in keys || prefix + name in keys
    ensures prefix + ("preview-" + name) in keys ==> r == [SetContent(prefix + ("preview-" + name), markup)]
    ensures prefix + ("preview-" + name) !in keys && prefix + name in keys ==> r == [SetContent(prefix + name, markup)]
  {
    match Lookup(keys, prefix + ("preview-" + name), prefix + name)
    case Some(id) => [SetContent(id, markup)]
    case None => []
  }

  /** The full name shown in the header. */
  function FullName(personal: PersonalInfo): string {
    personal.firstName + " " + personal.lastName
  }

  /** The name and job title, each under both of its binding names. */
  function HeaderWrites(prefix: string, personal: PersonalInfo): (r: seq<Write>)
    ensures forall w | w in r :: w.SetContent?
  {
    [ SetContent(prefix + "preview-name", FullName(personal)),
      SetContent(prefix + "name", FullName(personal)),
      SetContent(prefix + "preview-title", personal.jobTitle),
      SetContent(prefix + "title", personal.jobTitle) ]
  }

  /** The summary, under both of its binding names. */
  function SummaryWrites(prefix: string, personal: PersonalInfo): (r: seq<Write>)
    ensures forall w | w in r :: w.SetContent?
  {
    [ SetContent(prefix + "preview-summary", personal.summary),
      SetContent(prefix + "summary", personal.summary) ]
  }

  /** The three repeatable sections, each re-rendered wholesale. */
  function SectionsWrites(keys: set<string>, prefix: string, m: Sections): (r: seq<Write>)
    ensures forall w | w in r :: w.SetContent?
  {
    SectionWrites(keys, prefix, "experience", m.experience)
    + SectionWrites(keys, prefix, "education", m.education)
    + SectionWrites(keys, prefix, "skills", m.skills)
  }

  /** Every write `updatePreview` performs, in order, for the personal fields
      and the rendered sections of a snapshot. */
  function ProjectionWrites(keys: set<string>, prefix: string, personal: PersonalInfo, m: Sections): seq<Write> {
    HeaderWrites(prefix, personal)
    + ContactsWrites(keys, prefix, personal)
    + SummaryWrites(prefix, personal)
    + SectionsWrites(keys, prefix, m)
  }

  /** The writes performed under the binding ids of `prefix`. */
  function Sync(nodes: map<string, Node>, prefix: string, personal: PersonalInfo, m: Sections): (r: map<string, Node>)
    ensures r.Keys == nodes.Keys
  {
    ApplyAll(nodes, ProjectionWrites(nodes.Keys, prefix, personal, m))
  }

  /** The projection of a snapshot onto the binding points of `template`. */
  function Project(nodes: map<string, Node>, template: string, d: ResumeData): (r: map<string, Node>)
    ensures r.Keys == nodes.Keys
  {
    Sync(nodes, TemplatePrefix(template), d.personal, RenderSections(d))
  }
}
