/** The worker of the second pipeline. Unlike the parser's own `scrape`
    it examines every language section, the last one included, and it
    compiles its patterns itself: the language header and the line-long
    verb template. */
module LegacyWorker {
  import opened Text
  import opened Patterns
  import opened Pages
  import opened Sink
  import opened Distinct
  import opened LegacyScrape

  class Worker {
    const store: Store
    /** The language section being processed. */
    var languageSection: string
    const languagePattern: Scanner
    const templatePattern: Scanner

    /** `NewWorker`. */
    constructor (store: Store)
      ensures this.store == store && languageSection == []
      ensures languagePattern == Scans(LanguageHeader) && templatePattern == Scans(LineTemplate)
    {
      this.store := store;
      languageSection := [];
      languagePattern := Scans(LanguageHeader);
      templatePattern := Scans(LineTemplate);
    }

    /** `GetTemplates`: the distinct template lines of the current section,
        in first-occurrence order. */
    method GetTemplates() returns (ts: seq<string>)
      ensures ts == TemplatesIn(templatePattern, languageSection)
    {
      var ms := ScanAll(templatePattern, languageSection);
      var templates := Texts(languageSection, ms);
      ts := Dedup(templates);
    }

    /** The body of the `if` for a section holding a verb header: look
        the language up, insert the verb, store its templates. */
    method StoreVerb(title: string, language: string)
      modifies store
      ensures store.log == VerbCalls(store.respond, templatePattern, title, language, languageSection, old(store.log))
    {
      ghost var log0 := store.log;
      ghost var r := VerbCalls(store.respond, templatePattern, title, language, languageSection, log0);
      var known := store.Send(LanguageExists(language));
      if known.err.None? {
        var verb := store.Send(InsertVerbOf(language, title));
        assert store.log == log0 + [LanguageExists(language), InsertVerbOf(language, title)];
        if verb.err.None? {
          var templates := GetTemplates();
          StoreTemplates(store, templates, verb.id);
          assert r == log0 + [LanguageExists(language), InsertVerbOf(language, title)] + Inserts(templates, verb.id);
        } else {
          assert r == log0 + [LanguageExists(language), InsertVerbOf(language, title)];
        }
      } else {
        assert r == log0 + [LanguageExists(language)];
      }
    }

    /** `process`: examines every language section. */
    method Process(page: Page)
      modifies this, store
      ensures store.log == ScrapeFrom(store.respond, languagePattern, templatePattern, page, 0,
                                       |Headers(languagePattern, page.text)|, old(store.log))
    {
      var hs := Headers(languagePattern, page.text);
      var sectionCount := |hs|;
      var i := 0;
      while i < sectionCount
        invariant i <= sectionCount
        invariant ScrapeFrom(store.respond, languagePattern, templatePattern, page, i, sectionCount, store.log) ==
                  ScrapeFrom(store.respond, languagePattern, templatePattern, page, 0, sectionCount, old(store.log))
      {
        languageSection := Section(page.text, hs, i);
        if Contains(languageSection, VerbMarker) {
          StoreVerb(page.title, ExtractLanguage(page.text, hs[i]));
        }
        i := i + 1;
      }
    }
  }

  /** The text of one line-template match has the template's shape. */
  lemma {:induction false} LineTemplateMatchShape(section: string, m: Match, t: string)
    requires m.start <= |section| && MatchAt(LineTemplate, section, m.start) == Some(m)
    requires m.end <= |section| && t == section[m.start..m.end]
    ensures m.start + 6 <= m.end && LineStart(section, m.start) && LineEnd(section, m.end)
    ensures |t| >= 6 && t[..2] == "{{" && t[|t| - 2..] == "}}"
  {
    LineTemplateFacts(section, m);
    var p, e := m.start, m.end;
    assert t[..2] == section[p..p + 2];
    assert t[|t| - 2..] == section[e - 2..e];
  }

  /** A line-template match holds `verb` away from both pairs of braces. */
  lemma {:induction false} LineTemplateMatchVerb(section: string, m: Match, t: string)
    requires m.start <= |section| && MatchAt(LineTemplate, section, m.start) == Some(m)
    requires m.end <= |section| && t == section[m.start..m.end]
    ensures |t| >= 6 && Contains(t[3..|t| - 3], "verb")
  {
    LineTemplateFacts(section, m);
    SliceOfSlice(section, m.start, m.end, 3, m.end - m.start - 3);
  }

  /** After its opening braces, a line-template match holds no `{`. */
  lemma {:induction false} LineTemplateMatchBraces(section: string, m: Match, t: string)
    requires m.start <= |section| && MatchAt(LineTemplate, section, m.start) == Some(m)
    requires m.end <= |section| && t == section[m.start..m.end]
    ensures forall q :: 2 <= q < |t| ==> t[q] != '{'
  {
    LineTemplateFacts(section, m);
    forall q | 2 <= q < |t|
      ensures t[q] != '{'
    {
      assert t[q] == section[m.start + q];
    }
  }

  /** Every template the worker's pattern yields is a run of lines
      (`section[p..e]`): it starts at a line start with `{{`, ends at a line
      end with `}}`, holds no `{` after the opening braces, and has `verb`
      inside with at least one character between it and each pair of
      braces. */
  lemma {:induction false} LineTemplatesShape(section: string, t: string) returns (p: nat, e: nat)
    requires t in TemplatesIn(Scans(LineTemplate), section)
    ensures p + 6 <= e <= |section| && t == section[p..e] && LineStart(section, p) && LineEnd(section, e)
    ensures |t| >= 6 && t[..2] == "{{" && t[|t| - 2..] == "}}"
    ensures forall q :: 2 <= q < |t| ==> t[q] != '{'
    ensures Contains(t[3..|t| - 3], "verb")
  {
    var k := TemplateFrom(Scans(LineTemplate), section, t);
    var ms := ScanAll(Scans(LineTemplate), section);
    ScanAllScans(LineTemplate, section);
    assert ms == FindAll(LineTemplate, section, 0);
    var m := ms[k];
    assert MatchAt(LineTemplate, section, m.start) == Some(m);
    LineTemplateMatchShape(section, m, t);
    LineTemplateMatchBraces(section, m, t);
    LineTemplateMatchVerb(section, m, t);
    p, e := m.start, m.end;
  }
}
