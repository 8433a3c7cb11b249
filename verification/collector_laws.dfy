/** Laws of the collector: how defaulting and skills parsing behave on all
    inputs, and the concrete cases the page relies on. */
module CollectorLaws {
  import opened Text
  import opened Resume
  import opened Collector

  /** A blank but non-empty personal input is kept verbatim: `||` does not trim. */
  lemma BlankPersonalInputKept(fields: map<string, string>, f: PersonalField)
    requires f.Name() in fields && fields[f.Name()] == "  "
    ensures CollectPersonal(fields).Get(f) == "  "
  {
    PersonalFallbackLaw(fields, f);
  }

  /** Defaulting an entry twice changes nothing: a collected record is complete,
      so every field is kept. */
  lemma DefaultExperienceIdempotent(e: Experience)
    ensures DefaultExperience(DefaultExperience(e)) == DefaultExperience(e)
  {
  }

  lemma DefaultEducationIdempotent(e: Education)
    ensures DefaultEducation(DefaultEducation(e)) == DefaultEducation(e)
  {
  }

  /** A freshly added, all-empty entry collects to the all-fallback record. */
  lemma BlankEntriesCollectToFallbacks()
    ensures DefaultExperience(BlankExperience) == ExperienceFallback
    ensures DefaultEducation(BlankEducation) == EducationFallback
  {
  }

  /** Collecting the experience records of already-collected records gives
      them back unchanged. */
  lemma {:induction false} CollectExperienceIdempotent(entries: seq<Experience>)
    ensures CollectExperience(CollectExperience(entries)) == CollectExperience(entries)
  {
    var r := CollectExperience(entries);
    forall i | 0 <= i < |r|
      ensures CollectExperience(r)[i] == r[i]
    {
      DefaultExperienceIdempotent(entries[i]);
    }
  }

  /** Collection of entries commutes with appending entry groups. */
  lemma {:induction false} CollectExperienceAppend(a: seq<Experience>, b: seq<Experience>)
    ensures CollectExperience(a + b) == CollectExperience(a) + CollectExperience(b)
  {
    var l, r := CollectExperience(a + b), CollectExperience(a) + CollectExperience(b);
    assert |l| == |r|;
    forall i | 0 <= i < |l|
      ensures l[i] == r[i]
    {
      if i < |a| {
        assert (a + b)[i] == a[i];
      } else {
        assert (a + b)[i] == b[i - |a|];
      }
    }
  }

  lemma {:induction false} CollectEducationAppend(a: seq<Education>, b: seq<Education>)
    ensures CollectEducation(a + b) == CollectEducation(a) + CollectEducation(b)
  {
    var l, r := CollectEducation(a + b), CollectEducation(a) + CollectEducation(b);
    assert |l| == |r|;
    forall i | 0 <= i < |l|
      ensures l[i] == r[i]
    {
      if i < |a| {
        assert (a + b)[i] == a[i];
      } else {
        assert (a + b)[i] == b[i - |a|];
      }
    }
  }

  /** Filtering trimmed pieces distributes over concatenation of piece lists. */
  lemma {:induction false} TrimmedNonEmptyAppend(a: seq<string>, b: seq<string>)
    ensures TrimmedNonEmpty(a + b) == TrimmedNonEmpty(a) + TrimmedNonEmpty(b)
    decreases |a|
  {
    if |a| == 0 {
      assert a + b == b;
    } else {
      assert (a + b)[0] == a[0];
      assert (a + b)[1..] == a[1..] + b;
      TrimmedNonEmptyAppend(a[1..], b);
    }
  }

  /** The skills of `a,b` are the skills of `a` followed by the skills of `b`:
      order is kept and nothing is merged or deduplicated. */
  lemma ParseSkillsAppend(a: string, b: string)
    ensures ParseSkills(a + [','] + b) == ParseSkills(a) + ParseSkills(b)
  {
    SplitAppend(a, b, ',');
    TrimmedNonEmptyAppend(Split(a, ','), Split(b, ','));
  }

  /** A comma-free text yields its trim, or nothing when that trim is empty. */
  lemma ParseSkillsPiece(p: string)
    requires ',' !in p
    ensures ParseSkills(p) == if Trim(p) == "" then [] else [Trim(p)]
  {
    SplitNoSeparator(p, ',');
    assert [p][1..] == [];
  }

  /** Characters of a skills text that carries no skill. */
  predicate BlankOrComma(c: char) {
    c == ',' || IsWhitespace(c)
  }

  /** A text of only blanks and commas yields no skill at all. */
  lemma {:induction false} ParseSkillsOfBlanks(text: string)
    requires forall i :: 0 <= i < |text| ==> BlankOrComma(text[i])
    ensures ParseSkills(text) == []
    decreases |text|
  {
    if ',' in text {
      var k :| 0 <= k < |text| && text[k] == ',';
      var a, b := text[..k], text[k + 1..];
      assert text == a + [','] + b;
      assert forall i :: 0 <= i < |a| ==> BlankOrComma(a[i]) by {
        forall i | 0 <= i < |a|
          ensures BlankOrComma(a[i])
        {
          assert a[i] == text[i];
        }
      }
      assert forall i :: 0 <= i < |b| ==> BlankOrComma(b[i]) by {
        forall i | 0 <= i < |b|
          ensures BlankOrComma(b[i])
        {
          assert b[i] == text[k + 1 + i];
        }
      }
      ParseSkillsAppend(a, b);
      ParseSkillsOfBlanks(a);
      ParseSkillsOfBlanks(b);
    } else {
      ParseSkillsPiece(text);
      assert AllWhitespace(text) by {
        forall i | 0 <= i < |text|
          ensures IsWhitespace(text[i])
        {
          assert text[i] in text;
        }
      }
      TrimEmptyIffBlank(text);
    }
  }

  /** A leading space is trimmed away. */
  lemma TrimLeadingSpace(w: string)
    requires IsTrimmed(w)
    ensures Trim([' '] + w) == w
  {
    TrimStartSkips(' ', w);
    TrimOfTrimmed(w);
  }

  /** A space on both sides is trimmed away. */
  lemma TrimSurroundingSpaces(w: string)
    requires w != "" && IsTrimmed(w)
    ensures Trim([' '] + (w + [' '])) == w
  {
    var q := w + [' '];
    TrimStartSkips(' ', q);
    assert q[0] == w[0];
    assert TrimStart(q) == q;
    TrimEndSkips(w, ' ');
    TrimOfTrimmed(w);
  }

  /** A skill word with no comma and no surrounding blank. */
  predicate SkillWord(w: string) {
    w != "" && IsTrimmed(w) && ',' !in w
  }

  /** A skill word parses to itself. */
  lemma ParseWord(w: string)
    requires SkillWord(w)
    ensures ParseSkills(w) == [w]
  {
    TrimOfTrimmed(w);
    ParseSkillsPiece(w);
  }

  /** A skill word after one space parses to the word. */
  lemma ParseSpacedWord(w: string)
    requires SkillWord(w)
    ensures ParseSkills([' '] + w) == [w]
  {
    TrimLeadingSpace(w);
    ParseSkillsPiece([' '] + w);
  }

  /** `a, b, c` (one space after each comma) parses to the three words. */
  lemma ParseThreeWords(a: string, b: string, c: string)
    requires SkillWord(a) && SkillWord(b) && SkillWord(c)
    ensures ParseSkills(a + "," + ((" " + b) + "," + (" " + c))) == [a, b, c]
  {
    ParseSkillsAppend(a, (" " + b) + "," + (" " + c));
    ParseSkillsAppend(" " + b, " " + c);
    ParseWord(a);
    ParseSpacedWord(b);
    ParseSpacedWord(c);
  }

  /** The fallback skills text parses to the three placeholder skills. */
  lemma FallbackTextYieldsPlaceholders()
    ensures ParseSkills(SkillsFallbackText) == PlaceholderSkills
  {
    ParseThreeWords("Skill 1", "Skill 2", "Skill 3");
  }

  /** An empty or absent skills field yields the three placeholder skills. */
  lemma EmptySkillsFieldYieldsPlaceholders(fields: map<string, string>)
    requires !Filled(fields, "skills")
    ensures ParseSkills(SkillsText(fields)) == PlaceholderSkills
  {
    FallbackTextYieldsPlaceholders();
  }

  /** Duplicates are kept. */
  lemma ParseSkillsKeepsDuplicates(s: string)
    requires s != "" && IsTrimmed(s) && ',' !in s
    ensures ParseSkills(s + [','] + s) == [s, s]
  {
    ParseSkillsAppend(s, s);
    TrimOfTrimmed(s);
    ParseSkillsPiece(s);
  }
}
