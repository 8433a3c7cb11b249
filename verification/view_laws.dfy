/** Laws of the projection: it is idempotent, it writes only to the active
    template's binding points, and every binding point that exists ends up
    holding its snapshot field. */
module ViewLaws {
  import opened Optional
  import opened Resume
  import opened Collector
  import opened Dom
  import opened Render
  import opened View

  /** Projecting the same snapshot twice is the same as projecting it once. */
  lemma ProjectIdempotent(nodes: map<string, Node>, template: string, d: ResumeData)
    ensures Project(Project(nodes, template, d), template, d) == Project(nodes, template, d)
  {
    var p, m := TemplatePrefix(template), RenderSections(d);
    ApplyAllIdempotent(nodes, ProjectionWrites(nodes.Keys, p, d.personal, m));
  }

  lemma PrefixCancel(p: string, a: string, b: string)
    requires p + a == p + b
    ensures a == b
  {
    assert a == (p + a)[|p|..];
    assert b == (p + b)[|p|..];
  }

  // ---- Which binding names each block writes ----

  /** The logical names contact `c` is written under. */
  function ContactNames(c: PersonalField): set<string> {
    NamesOf(c.Name())
  }

  /** The four logical names of a contact whose field id is `n`. */
  function NamesOf(n: string): set<string> {
    { "preview-" + n, n, "preview-" + n + "-contact", n + "-contact" }
  }

  /** The binding names of the header, the summary and the sections. The
      section names are written `"preview-" + name`, the term the projection
      builds, so that no sequence reasoning is needed to match them. */
  const OtherNames: set<string> := {
    "preview-name", "name", "preview-title", "title", "preview-summary", "summary",
    "preview-" + "experience", "experience", "preview-" + "education", "education",
    "preview-" + "skills", "skills" }

  /** Every logical name the projection may write under. */
  function BindingNames(): (r: set<string>)
    ensures OtherNames <= r
    ensures forall c | c in ContactFields :: ContactNames(c) <= r
  {
    OtherNames + ContactNames(Email) + ContactNames(Phone) + ContactNames(Location) + ContactNames(LinkedIn)
  }

  /** `x` is none of the logical names contact `c` is written under. */
  predicate NotNameOf(x: string, c: PersonalField) {
    x !in ContactNames(c)
  }

  lemma ContactMiss(keys: set<string>, p: string, personal: PersonalInfo, c: PersonalField, x: string)
    requires NotNameOf(x, c)
    ensures Misses(ContactWrites(keys, p, personal, c), p + x)
  {
    var n := c.Name();
    forall w | w in ContactWrites(keys, p, personal, c)
      ensures w.id != p + x
    {
      if w.id == p + ("preview-" + n) {
        if w.id == p + x { PrefixCancel(p, "preview-" + n, x); }
      } else if w.id == p + n {
        if w.id == p + x { PrefixCancel(p, n, x); }
      } else if w.id == p + ("preview-" + n + "-contact") {
        if w.id == p + x { PrefixCancel(p, "preview-" + n + "-contact", x); }
      } else {
        if w.id == p + x { PrefixCancel(p, n + "-contact", x); }
      }
    }
  }

  lemma ContactsMiss(keys: set<string>, p: string, personal: PersonalInfo, x: string)
    requires NotNameOf(x, Email) && NotNameOf(x, Phone) && NotNameOf(x, Location) && NotNameOf(x, LinkedIn)
    ensures Misses(ContactsWrites(keys, p, personal), p + x)
  {
    ContactMiss(keys, p, personal, Email, x);
    ContactMiss(keys, p, personal, Phone, x);
    ContactMiss(keys, p, personal, Location, x);
    ContactMiss(keys, p, personal, LinkedIn, x);
  }

  lemma SectionMiss(keys: set<string>, p: string, name: string, markup: string, x: string)
    requires x != "preview-" + name && x != name
    ensures Misses(SectionWrites(keys, p, name, markup), p + x)
  {
    forall w | w in SectionWrites(keys, p, name, markup)
      ensures w.id != p + x
    {
      if w.id == p + x {
        if w.id == p + ("preview-" + name) {
          PrefixCancel(p, "preview-" + name, x);
        } else {
          PrefixCancel(p, name, x);
        }
      }
    }
  }

  lemma SectionsMiss(keys: set<string>, p: string, m: Sections, x: string)
    requires x != "preview-" + "experience" && x != "experience"
    requires x != "preview-" + "education" && x != "education"
    requires x != "preview-" + "skills" && x != "skills"
    ensures Misses(SectionsWrites(keys, p, m), p + x)
  {
    SectionMiss(keys, p, "experience", m.experience, x);
    SectionMiss(keys, p, "education", m.education, x);
    SectionMiss(keys, p, "skills", m.skills, x);
  }

  /** What the distinctness arguments need of a contact's field id: five or
      eight letters, not starting with `t`, not ending with `t`. */
  predicate ContactIdShape(n: string) {
    (|n| == 5 || |n| == 8) && n[0] != 't' && n[|n| - 1] != 't'
  }

  lemma ContactShapes(c: PersonalField)
    requires c in ContactFields
    ensures ContactIdShape(c.Name())
  {
  }

  /** A name whose length no contact name can have is no contact name. */
  lemma LengthRulesOut(x: string, n: string)
    requires |n| == 5 || |n| == 8
    requires |x| != 5 && |x| != 8 && |x| != 13 && |x| != 16 && |x| != 21 && |x| != 24
    ensures x !in NamesOf(n)
  {
  }

  /** Neither title binding name is a contact name: `title` differs from the
      id in its first letter, `preview-title` from `preview-<id>` in the
      letter after the dash and from `<id>-contact` in its last letter. */
  lemma TitleRulesOut(n: string)
    requires ContactIdShape(n)
    ensures "title" !in NamesOf(n) && "preview-title" !in NamesOf(n)
  {
    assert "title"[0] == 't' && "preview-title"[8] == 't' && "preview-title"[12] == 'e';
    assert ("preview-" + n)[8] == n[0];
    assert (n + "-contact")[|n| + 7] == 't';
  }

  /** Two contact ids that differ in one of their first two letters have no
      logical name in common. */
  lemma NamesDisjoint(n: string, n': string, x: string)
    requires ContactIdShape(n) && ContactIdShape(n')
    requires n[0] != n'[0] || n[1] != n'[1]
    requires x in NamesOf(n)
    ensures x !in NamesOf(n')
  {
    assert ("preview-" + n)[8] == n[0] && ("preview-" + n)[9] == n[1];
    assert ("preview-" + n')[8] == n'[0] && ("preview-" + n')[9] == n'[1];
    assert ("preview-" + n)[|n| + 7] == n[|n| - 1] && ("preview-" + n')[|n'| + 7] == n'[|n'| - 1];
    assert ("preview-" + n + "-contact")[8] == n[0] && ("preview-" + n + "-contact")[9] == n[1];
    assert ("preview-" + n' + "-contact")[8] == n'[0] && ("preview-" + n' + "-contact")[9] == n'[1];
    assert (n + "-contact")[0] == n[0] && (n + "-contact")[1] == n[1] && (n + "-contact")[|n| + 7] == 't';
    assert (n' + "-contact")[0] == n'[0] && (n' + "-contact")[1] == n'[1] && (n' + "-contact")[|n'| + 7] == 't';
  }

  /** The non-contact binding names are none of a contact's names. */
  lemma OtherNamesNotContact(c: PersonalField)
    requires c in ContactFields
    ensures NotNameOf("preview-name", c) && NotNameOf("name", c)
    ensures NotNameOf("preview-summary", c) && NotNameOf("summary", c)
  {
    var n := c.Name();
    ContactShapes(c);
    LengthRulesOut("preview-name", n);
    LengthRulesOut("name", n);
    LengthRulesOut("preview-summary", n);
    LengthRulesOut("summary", n);
  }

  /** The section binding names are none of a contact's names. */
  lemma SectionNamesNotContact(c: PersonalField)
    requires c in ContactFields
    ensures NotNameOf("preview-" + "experience", c) && NotNameOf("experience", c)
    ensures NotNameOf("preview-" + "education", c) && NotNameOf("education", c)
    ensures NotNameOf("preview-" + "skills", c) && NotNameOf("skills", c)
  {
    var n := c.Name();
    ContactShapes(c);
    LengthRulesOut("preview-" + "experience", n);
    LengthRulesOut("experience", n);
    LengthRulesOut("preview-" + "education", n);
    LengthRulesOut("education", n);
    LengthRulesOut("preview-" + "skills", n);
    LengthRulesOut("skills", n);
  }

  /** The title's binding names are none of a contact's names. */
  lemma TitleNotContact(c: PersonalField)
    requires c in ContactFields
    ensures NotNameOf("preview-title", c) && NotNameOf("title", c)
  {
    ContactShapes(c);
    TitleRulesOut(c.Name());
  }

  /** Distinct contacts have no logical name in common. */
  lemma ContactNamesDisjoint(c: PersonalField, c': PersonalField, x: string)
    requires c in ContactFields && c' in ContactFields && c != c'
    requires x in ContactNames(c)
    ensures NotNameOf(x, c')
  {
    ContactShapes(c);
    ContactShapes(c');
    assert c.Name()[0] != c'.Name()[0] || c.Name()[1] != c'.Name()[1];
    NamesDisjoint(c.Name(), c'.Name(), x);
  }

  // ---- What each binding point ends up holding ----

  /** Only content writes. */
  predicate ContentOnly(ws: seq<Write>) {
    forall w | w in ws :: w.SetContent?
  }

  /** The final state of an element after four blocks of writes, each
      overriding the ones before, when only the second writes displays. */
  lemma {:induction false} FinalOfBlocks(nodes: map<string, Node>, h: seq<Write>, c: seq<Write>, s: seq<Write>, x: seq<Write>, id: string)
    requires id in nodes
    requires ContentOnly(h) && ContentOnly(s) && ContentOnly(x)
    ensures ApplyAll(nodes, h + c + s + x)[id].content
         == LastContent(x, id).GetOr(LastContent(s, id).GetOr(LastContent(c, id).GetOr(
              LastContent(h, id).GetOr(nodes[id].content))))
    ensures ApplyAll(nodes, h + c + s + x)[id].display == LastDisplay(c, id).GetOr(nodes[id].display)
  {
    ApplyAllFinal(nodes, h + c + s + x, id);
    LastContentAppend(h + c + s, x, id);
    LastContentAppend(h + c, s, id);
    LastContentAppend(h, c, id);
    LastDisplayAppend(h + c + s, x, id);
    LastDisplayAppend(h + c, s, id);
    LastDisplayAppend(h, c, id);
    LastDisplayNone(h, id);
    LastDisplayNone(s, id);
    LastDisplayNone(x, id);
  }

  /** The final state of an element under the projection, block by block:
      the header, the contacts, the summary and the sections, each overriding
      the ones before; only the contacts write a display. */
  lemma SyncFinal(nodes: map<string, Node>, p: string, personal: PersonalInfo, m: Sections, id: string)
    requires id in nodes
    ensures var h, c, s, x := HeaderWrites(p, personal), ContactsWrites(nodes.Keys, p, personal),
                              SummaryWrites(p, personal), SectionsWrites(nodes.Keys, p, m);
      && Sync(nodes, p, personal, m)[id].content
         == LastContent(x, id).GetOr(LastContent(s, id).GetOr(LastContent(c, id).GetOr(
              LastContent(h, id).GetOr(nodes[id].content))))
      && Sync(nodes, p, personal, m)[id].display == LastDisplay(c, id).GetOr(nodes[id].display)
  {
    var h, c, s, x := HeaderWrites(p, personal), ContactsWrites(nodes.Keys, p, personal),
                      SummaryWrites(p, personal), SectionsWrites(nodes.Keys, p, m);
    FinalOfBlocks(nodes, h, c, s, x, id);
  }

  /** The binding points of the header and the summary. */
  datatype FieldBinding = PreviewName | NameBinding | PreviewTitle | TitleBinding | PreviewSummary | SummaryBinding
  {
    /** The binding's logical name. */
    function Key(): string {
      match this
      case PreviewName => "preview-name"
      case NameBinding => "name"
      case PreviewTitle => "preview-title"
      case TitleBinding => "title"
      case PreviewSummary => "preview-summary"
      case SummaryBinding => "summary"
    }

    /** The binding is written by the header block (else by the summary block). */
    predicate InHeader() {
      !PreviewSummary? && !SummaryBinding?
    }

    /** The personal value the binding shows. */
    function Shown(personal: PersonalInfo): string {
      match this
      case PreviewName | NameBinding => FullName(personal)
      case PreviewTitle | TitleBinding => personal.jobTitle
      case PreviewSummary | SummaryBinding => personal.summary
    }
  }

  /** The header and summary writes, looked up by binding. */
  lemma FieldLast(p: string, personal: PersonalInfo, b: FieldBinding)
    ensures b.InHeader() ==> LastContent(HeaderWrites(p, personal), p + b.Key()) == Some(b.Shown(personal))
    ensures b.InHeader() ==> Misses(SummaryWrites(p, personal), p + b.Key())
    ensures !b.InHeader() ==> LastContent(SummaryWrites(p, personal), p + b.Key()) == Some(b.Shown(personal))
  {
    var h, s, x, v := HeaderWrites(p, personal), SummaryWrites(p, personal), b.Key(), b.Shown(personal);
    forall w | w in h && w.SetContent? && w.id == p + x
      ensures w.value == v
    {
      if w == h[0] { PrefixCancel(p, "preview-name", x); }
      else if w == h[1] { PrefixCancel(p, "name", x); }
      else if w == h[2] { PrefixCancel(p, "preview-title", x); }
      else { PrefixCancel(p, "title", x); }
    }
    forall w | w in s && w.SetContent? && w.id == p + x
      ensures w.value == v
    {
      if w == s[0] { PrefixCancel(p, "preview-summary", x); }
      else { PrefixCancel(p, "summary", x); }
    }
    if b.InHeader() {
      assert SetContent(p + x, v) in h;
      LastContentUniform(h, p + x, v);
      SummaryMiss(p, personal, x);
    } else {
      assert SetContent(p + x, v) in s;
      LastContentUniform(s, p + x, v);
    }
  }

  lemma HeaderMiss(p: string, personal: PersonalInfo, x: string)
    requires x !in {"preview-name", "name", "preview-title", "title"}
    ensures Misses(HeaderWrites(p, personal), p + x)
  {
    var h := HeaderWrites(p, personal);
    forall w | w in h
      ensures w.id != p + x
    {
      if w == h[0] { if w.id == p + x { PrefixCancel(p, "preview-name", x); } }
      else if w == h[1] { if w.id == p + x { PrefixCancel(p, "name", x); } }
      else if w == h[2] { if w.id == p + x { PrefixCancel(p, "preview-title", x); } }
      else { if w.id == p + x { PrefixCancel(p, "title", x); } }
    }
  }

  lemma SummaryMiss(p: string, personal: PersonalInfo, x: string)
    requires x != "preview-summary" && x != "summary"
    ensures Misses(SummaryWrites(p, personal), p + x)
  {
    var s := SummaryWrites(p, personal);
    forall w | w in s
      ensures w.id != p + x
    {
      if w == s[0] { if w.id == p + x { PrefixCancel(p, "preview-summary", x); } }
      else { if w.id == p + x { PrefixCancel(p, "summary", x); } }
    }
  }

  /** The contact writes miss every non-contact binding name. */
  lemma OtherNamesMissContacts(keys: set<string>, p: string, personal: PersonalInfo, x: string)
    requires x in OtherNames
    ensures Misses(ContactsWrites(keys, p, personal), p + x)
  {
    forall c | c in ContactFields
      ensures NotNameOf(x, c)
    {
      OtherNamesNotContact(c);
      SectionNamesNotContact(c);
      TitleNotContact(c);
    }
    ContactsMiss(keys, p, personal, x);
  }

  /** The header and summary binding names are none of the section names. */
  lemma FieldNameFacts(b: FieldBinding)
    ensures b.Key() in OtherNames
    ensures b.Key() != "preview-" + "experience" && b.Key() != "experience"
    ensures b.Key() != "preview-" + "education" && b.Key() != "education"
    ensures b.Key() != "preview-" + "skills" && b.Key() != "skills"
  {
  }

  /** The header, title and summary binding points hold the full name, the
      job title and the summary. */
  lemma SyncShowsField(nodes: map<string, Node>, p: string, personal: PersonalInfo, m: Sections, b: FieldBinding)
    requires p + b.Key() in nodes
    ensures Sync(nodes, p, personal, m)[p + b.Key()].content == b.Shown(personal)
  {
    var x := b.Key();
    var id := p + x;
    FieldNameFacts(b);
    SyncFinal(nodes, p, personal, m, id);
    FieldLast(p, personal, b);
    OtherNamesMissContacts(nodes.Keys, p, personal, x);
    MissesNone(ContactsWrites(nodes.Keys, p, personal), id);
    SectionsMiss(nodes.Keys, p, m, x);
    MissesNone(SectionsWrites(nodes.Keys, p, m), id);
    if b.InHeader() {
      MissesNone(SummaryWrites(p, personal), id);
    }
  }

  // ---- Sections ----

  /** The three repeatable sections. */
  datatype SectionBinding = ExperienceSection | EducationSection | SkillsSection
  {
    /** The section's logical name. */
    function Name(): string {
      match this
      case ExperienceSection => "experience"
      case EducationSection => "education"
      case SkillsSection => "skills"
    }

    /** The section's rendered markup. */
    function Markup(m: Sections): string {
      match this
      case ExperienceSection => m.experience
      case EducationSection => m.education
      case SkillsSection => m.skills
    }
  }

  /** The id a section's markup is written to, when the template has one. */
  function SectionTarget(keys: set<string>, p: string, sec: SectionBinding): Option<string> {
    Lookup(keys, p + ("preview-" + sec.Name()), p + sec.Name())
  }

  /** A section's binding names are no other block's names. */
  lemma SectionNameFacts(sec: SectionBinding, xn: string)
    requires xn == "preview-" + sec.Name() || xn == sec.Name()
    ensures xn in OtherNames
    ensures xn !in {"preview-name", "name", "preview-title", "title"}
    ensures xn != "preview-summary" && xn != "summary"
    ensures forall other: SectionBinding | other != sec :: xn != "preview-" + other.Name() && xn != other.Name()
  {
  }

  /** Within the section writes, a section's container receives that
      section's markup and no other. */
  lemma SectionsLast(keys: set<string>, p: string, m: Sections, sec: SectionBinding, xn: string)
    requires xn == "preview-" + sec.Name() || xn == sec.Name()
    requires SectionTarget(keys, p, sec) == Some(p + xn)
    ensures LastContent(SectionsWrites(keys, p, m), p + xn) == Some(sec.Markup(m))
  {
    var id := p + xn;
    SectionNameFacts(sec, xn);
    var e := SectionWrites(keys, p, "experience", m.experience);
    var d := SectionWrites(keys, p, "education", m.education);
    var k := SectionWrites(keys, p, "skills", m.skills);
    LastContentAppend(e + d, k, id);
    LastContentAppend(e, d, id);
    if sec != ExperienceSection {
      SectionMiss(keys, p, "experience", m.experience, xn);
      MissesNone(e, id);
    }
    if sec != EducationSection {
      SectionMiss(keys, p, "education", m.education, xn);
      MissesNone(d, id);
    }
    if sec != SkillsSection {
      SectionMiss(keys, p, "skills", m.skills, xn);
      MissesNone(k, id);
    }
  }

  /** The writes outside the sections miss a section's container. */
  lemma SectionTargetMissed(keys: set<string>, p: string, personal: PersonalInfo, sec: SectionBinding, xn: string)
    requires xn == "preview-" + sec.Name() || xn == sec.Name()
    ensures Misses(HeaderWrites(p, personal), p + xn)
    ensures Misses(ContactsWrites(keys, p, personal), p + xn)
    ensures Misses(SummaryWrites(p, personal), p + xn)
  {
    SectionNameFacts(sec, xn);
    HeaderMiss(p, personal, xn);
    OtherNamesMissContacts(keys, p, personal, xn);
    SummaryMiss(p, personal, xn);
  }

  /** A section's container holds the section's markup. */
  lemma SyncShowsSection(nodes: map<string, Node>, p: string, personal: PersonalInfo, m: Sections, sec: SectionBinding)
    ensures var t := SectionTarget(nodes.Keys, p, sec);
            t.Some? ==> Sync(nodes, p, personal, m)[t.value].content == sec.Markup(m)
  {
    var keys := nodes.Keys;
    var t := SectionTarget(keys, p, sec);
    if t.Some? {
      var xn: string;
      if p + ("preview-" + sec.Name()) in keys {
        xn := "preview-" + sec.Name();
      } else {
        xn := sec.Name();
      }
      var id := p + xn;
      SectionsLast(keys, p, m, sec, xn);
      SectionTargetMissed(keys, p, personal, sec, xn);
      MissesNone(HeaderWrites(p, personal), id);
      MissesNone(ContactsWrites(keys, p, personal), id);
      MissesNone(SummaryWrites(p, personal), id);
      SyncFinal(nodes, p, personal, m, id);
    }
  }

  // ---- Contacts ----

  /** The writes outside the contacts miss every contact binding point. */
  lemma ContactIdOutsideOthers(keys: set<string>, p: string, personal: PersonalInfo, m: Sections, c: PersonalField, xn: string)
    requires c in ContactFields && xn in ContactNames(c)
    ensures Misses(HeaderWrites(p, personal), p + xn)
    ensures Misses(SummaryWrites(p, personal), p + xn)
    ensures Misses(SectionsWrites(keys, p, m), p + xn)
  {
    OtherNamesNotContact(c);
    SectionNamesNotContact(c);
    TitleNotContact(c);
    HeaderMiss(p, personal, xn);
    SummaryMiss(p, personal, xn);
    SectionsMiss(keys, p, m, xn);
  }

  /** Among the contact writes, a contact's binding points are written only
      by that contact's own writes. */
  lemma ContactsLastOf(keys: set<string>, p: string, personal: PersonalInfo, c: PersonalField, xn: string)
    requires c in ContactFields && xn in ContactNames(c)
    ensures LastContent(ContactsWrites(keys, p, personal), p + xn)
            == LastContent(ContactWrites(keys, p, personal, c), p + xn)
    ensures LastDisplay(ContactsWrites(keys, p, personal), p + xn)
            == LastDisplay(ContactWrites(keys, p, personal, c), p + xn)
  {
    forall c' | c' in ContactFields && c' != c
      ensures Misses(ContactWrites(keys, p, personal, c'), p + xn)
    {
      ContactNamesDisjoint(c, c', xn);
      ContactMiss(keys, p, personal, c', xn);
    }
    ContactsLastContent(keys, p, personal, c, p + xn);
    ContactsLastDisplay(keys, p, personal, c, p + xn);
  }

  /** The content half of `ContactsLastOf`. */
  lemma ContactsLastContent(keys: set<string>, p: string, personal: PersonalInfo, c: PersonalField, id: string)
    requires c in ContactFields
    requires forall c' | c' in ContactFields && c' != c :: Misses(ContactWrites(keys, p, personal, c'), id)
    ensures LastContent(ContactsWrites(keys, p, personal), id) == LastContent(ContactWrites(keys, p, personal, c), id)
  {
    var a := ContactWrites(keys, p, personal, Email);
    var b := ContactWrites(keys, p, personal, Phone);
    var l := ContactWrites(keys, p, personal, Location);
    var k := ContactWrites(keys, p, personal, LinkedIn);
    forall c' | c' in ContactFields && c' != c
      ensures LastContent(ContactWrites(keys, p, personal, c'), id) == None
    {
      MissesNone(ContactWrites(keys, p, personal, c'), id);
    }
    LastContentAppend(a + b + l, k, id);
    LastContentAppend(a + b, l, id);
    LastContentAppend(a, b, id);
  }

  /** The display half of `ContactsLastOf`. */
  lemma ContactsLastDisplay(keys: set<string>, p: string, personal: PersonalInfo, c: PersonalField, id: string)
    requires c in ContactFields
    requires forall c' | c' in ContactFields && c' != c :: Misses(ContactWrites(keys, p, personal, c'), id)
    ensures LastDisplay(ContactsWrites(keys, p, personal), id) == LastDisplay(ContactWrites(keys, p, personal, c), id)
  {
    var a := ContactWrites(keys, p, personal, Email);
    var b := ContactWrites(keys, p, personal, Phone);
    var l := ContactWrites(keys, p, personal, Location);
    var k := ContactWrites(keys, p, personal, LinkedIn);
    forall c' | c' in ContactFields && c' != c
      ensures LastDisplay(ContactWrites(keys, p, personal, c'), id) == None
    {
      MissesNone(ContactWrites(keys, p, personal, c'), id);
    }
    LastDisplayAppend(a + b + l, k, id);
    LastDisplayAppend(a + b, l, id);
    LastDisplayAppend(a, b, id);
  }

  /** The final state of a contact binding point: whatever that contact's own
      writes leave there. */
  lemma SyncContactFinal(nodes: map<string, Node>, p: string, personal: PersonalInfo, m: Sections, c: PersonalField, xn: string)
    requires c in ContactFields && xn in ContactNames(c) && p + xn in nodes
    ensures var own, id := ContactWrites(nodes.Keys, p, personal, c), p + xn;
      && Sync(nodes, p, personal, m)[id].content == LastContent(own, id).GetOr(nodes[id].content)
      && Sync(nodes, p, personal, m)[id].display == LastDisplay(own, id).GetOr(nodes[id].display)
  {
    var id := p + xn;
    ContactIdOutsideOthers(nodes.Keys, p, personal, m, c, xn);
    MissesNone(HeaderWrites(p, personal), id);
    MissesNone(SummaryWrites(p, personal), id);
    MissesNone(SectionsWrites(nodes.Keys, p, m), id);
    ContactsLastOf(nodes.Keys, p, personal, c, xn);
    SyncFinal(nodes, p, personal, m, id);
  }

  /** When both the value node and the row wrapper of a contact exist, the
      value node holds the value and the row's display follows the
      visibility rule. */
  lemma SyncShowsContact(nodes: map<string, Node>, p: string, personal: PersonalInfo, m: Sections, c: PersonalField)
    requires c in ContactFields
    ensures var node, row := ContactNode(nodes.Keys, p, c), ContactRow(nodes.Keys, p, c);
      node.Some? && row.Some? ==>
        && Sync(nodes, p, personal, m)[node.value].content == personal.Get(c)
        && Sync(nodes, p, personal, m)[row.value].display == ContactDisplay(personal.Get(c), c.Name())
  {
    var keys := nodes.Keys;
    if ContactNode(keys, p, c).Some? && ContactRow(keys, p, c).Some? {
      ContactValueShown(nodes, p, personal, m, c);
      ContactRowShown(nodes, p, personal, m, c);
    }
  }

  /** The value half of `SyncShowsContact`. */
  lemma ContactValueShown(nodes: map<string, Node>, p: string, personal: PersonalInfo, m: Sections, c: PersonalField)
    requires c in ContactFields
    requires ContactNode(nodes.Keys, p, c).Some? && ContactRow(nodes.Keys, p, c).Some?
    ensures Sync(nodes, p, personal, m)[ContactNode(nodes.Keys, p, c).value].content == personal.Get(c)
  {
    var keys, n := nodes.Keys, c.Name();
    var own, v := ContactWrites(keys, p, personal, c), personal.Get(c);
    var xn: string;
    if p + ("preview-" + n) in keys {
      xn := "preview-" + n;
    } else {
      xn := n;
    }
    assert ContactNode(keys, p, c).value == p + xn;
    assert SetContent(p + xn, v) == own[0];
    LastContentUniform(own, p + xn, v);
    SyncContactFinal(nodes, p, personal, m, c, xn);
  }

  /** The row half of `SyncShowsContact`. */
  lemma ContactRowShown(nodes: map<string, Node>, p: string, personal: PersonalInfo, m: Sections, c: PersonalField)
    requires c in ContactFields
    requires ContactNode(nodes.Keys, p, c).Some? && ContactRow(nodes.Keys, p, c).Some?
    ensures Sync(nodes, p, personal, m)[ContactRow(nodes.Keys, p, c).value].display
            == ContactDisplay(personal.Get(c), c.Name())
  {
    var keys, n := nodes.Keys, c.Name();
    var own, disp := ContactWrites(keys, p, personal, c), ContactDisplay(personal.Get(c), n);
    var yn: string;
    if p + ("preview-" + n + "-contact") in keys {
      yn := "preview-" + n + "-contact";
    } else {
      yn := n + "-contact";
    }
    assert ContactRow(keys, p, c).value == p + yn;
    assert SetDisplay(p + yn, disp) == own[1];
    LastDisplayUniform(own, p + yn, disp);
    SyncContactFinal(nodes, p, personal, m, c, yn);
  }

  /** When the value node or the row wrapper of a contact is missing, none of
      that contact's binding points changes. */
  lemma SyncSkipsContact(nodes: map<string, Node>, p: string, personal: PersonalInfo, m: Sections, c: PersonalField)
    requires c in ContactFields
    requires ContactNode(nodes.Keys, p, c).None? || ContactRow(nodes.Keys, p, c).None?
    ensures forall xn | xn in ContactNames(c) && p + xn in nodes ::
              Sync(nodes, p, personal, m)[p + xn] == nodes[p + xn]
  {
    assert ContactWrites(nodes.Keys, p, personal, c) == [];
    forall xn | xn in ContactNames(c) && p + xn in nodes
      ensures Sync(nodes, p, personal, m)[p + xn] == nodes[p + xn]
    {
      SyncContactFinal(nodes, p, personal, m, c, xn);
    }
  }

  // ---- Nothing outside the active template's binding points changes ----

  /** `id` is no binding id of prefix `p`. */
  predicate OutsideBindings(p: string, id: string) {
    forall x | x in BindingNames() :: id != p + x
  }

  lemma HeaderOutside(p: string, personal: PersonalInfo, id: string)
    requires OutsideBindings(p, id)
    ensures Misses(HeaderWrites(p, personal), id)
  {
    assert "preview-name" in OtherNames && "name" in OtherNames;
    assert "preview-title" in OtherNames && "title" in OtherNames;
  }

  lemma SummaryOutside(p: string, personal: PersonalInfo, id: string)
    requires OutsideBindings(p, id)
    ensures Misses(SummaryWrites(p, personal), id)
  {
    assert "preview-summary" in OtherNames && "summary" in OtherNames;
  }

  lemma ContactOutside(keys: set<string>, p: string, personal: PersonalInfo, c: PersonalField, id: string)
    requires c in ContactFields && OutsideBindings(p, id)
    ensures Misses(ContactWrites(keys, p, personal, c), id)
  {
    var n := c.Name();
    assert ContactNames(c) <= BindingNames();
    assert "preview-" + n in ContactNames(c) && n in ContactNames(c);
    assert "preview-" + n + "-contact" in ContactNames(c) && n + "-contact" in ContactNames(c);
  }

  lemma SectionsOutside(keys: set<string>, p: string, m: Sections, id: string)
    requires OutsideBindings(p, id)
    ensures Misses(SectionsWrites(keys, p, m), id)
  {
    assert "preview-" + "experience" in OtherNames && "experience" in OtherNames;
    assert "preview-" + "education" in OtherNames && "education" in OtherNames;
    assert "preview-" + "skills" in OtherNames && "skills" in OtherNames;
  }

  /** No write of the projection addresses an id outside the bindings. */
  lemma OutsideBindingsMissed(keys: set<string>, p: string, personal: PersonalInfo, m: Sections, id: string)
    requires OutsideBindings(p, id)
    ensures Misses(ProjectionWrites(keys, p, personal, m), id)
  {
    HeaderOutside(p, personal, id);
    ContactOutside(keys, p, personal, Email, id);
    ContactOutside(keys, p, personal, Phone, id);
    ContactOutside(keys, p, personal, Location, id);
    ContactOutside(keys, p, personal, LinkedIn, id);
    SummaryOutside(p, personal, id);
    SectionsOutside(keys, p, m, id);
  }

  /** An element whose id is no binding id of the active template keeps its
      content and its display. */
  lemma SyncOnlyTouchesBindings(nodes: map<string, Node>, p: string, personal: PersonalInfo, m: Sections, id: string)
    requires id in nodes
    requires OutsideBindings(p, id)
    ensures Sync(nodes, p, personal, m)[id] == nodes[id]
  {
    OutsideBindingsMissed(nodes.Keys, p, personal, m, id);
    Untouched(nodes, ProjectionWrites(nodes.Keys, p, personal, m), id);
  }

  /** Under a template other than `modern`, every element whose id does not
      start with the template's prefix (the bindings of every other template
      among them) is left as it was. */
  lemma ProjectLeavesOtherIds(nodes: map<string, Node>, template: string, d: ResumeData, id: string)
    requires id in nodes
    requires !(TemplatePrefix(template) <= id)
    ensures Project(nodes, template, d)[id] == nodes[id]
  {
    var p := TemplatePrefix(template);
    forall x | x in BindingNames()
      ensures id != p + x
    {
      assert p <= p + x;
    }
    SyncOnlyTouchesBindings(nodes, p, d.personal, RenderSections(d), id);
  }

  /** The projection of a snapshot puts each section's rendering into that
      section's container. */
  lemma ProjectShowsSections(nodes: map<string, Node>, template: string, d: ResumeData)
    ensures var p, r := TemplatePrefix(template), Project(nodes, template, d);
      && (SectionTarget(nodes.Keys, p, ExperienceSection).Some? ==>
            r[SectionTarget(nodes.Keys, p, ExperienceSection).value].content == RenderExperience(d.experience))
      && (SectionTarget(nodes.Keys, p, EducationSection).Some? ==>
            r[SectionTarget(nodes.Keys, p, EducationSection).value].content == RenderEducation(d.education))
      && (SectionTarget(nodes.Keys, p, SkillsSection).Some? ==>
            r[SectionTarget(nodes.Keys, p, SkillsSection).value].content == RenderSkills(d.skills))
  {
    var p, m := TemplatePrefix(template), RenderSections(d);
    SyncShowsSection(nodes, p, d.personal, m, ExperienceSection);
    SyncShowsSection(nodes, p, d.personal, m, EducationSection);
    SyncShowsSection(nodes, p, d.personal, m, SkillsSection);
  }

  // ---- The visibility rule on collected values ----

  /** A contact's fallback is never its own field id. */
  lemma ContactFallbackIsNotId(c: PersonalField)
    requires c in ContactFields
    ensures c.Fallback() != c.Name()
  {
    assert |c.Fallback()| != |c.Name()|;
  }

  /** On a collected snapshot a contact row is hidden exactly when the user
      typed the field's own id (`email`, `phone`, `location`, `linkedin`) into
      it: an empty input is replaced by a fallback, which always shows. */
  lemma CollectedContactHidden(fields: map<string, string>, c: PersonalField)
    requires c in ContactFields
    ensures ContactDisplay(CollectPersonal(fields).Get(c), c.Name()) == "none"
            <==> FormGet(fields, c.Name()) == Some(c.Name())
  {
    PersonalFallbackLaw(fields, c);
    ContactFallbackIsNotId(c);
  }
}
