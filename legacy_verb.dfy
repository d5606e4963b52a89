/** The verb parser of the two older pipelines: the `VerbConsumer` of the
    first one and the `VerbParser` of the second are the same type under
    two names. A parser takes pages through its page-limit gate and, for
    each page a worker hands back, scrapes the page into the database. */
module LegacyVerb {
  import opened Text
  import opened Patterns
  import opened Pages
  import opened Sink
  import opened Distinct
  import opened Intake
  import opened LegacyScrape

  /** The constructor's argument check. Unlike the current parser it
      accepts a page limit of 0. */
  function Check(threadCount: int, pageLimit: int): (r: Option<string>)
    ensures r.None? <==> threadCount >= 1 && pageLimit >= -1
    ensures threadCount < 1 ==> r == Some(ThreadCountError)
    ensures threadCount >= 1 && pageLimit < -1 ==> r == Some(PageLimitError)
  {
    if threadCount < 1 then Some(ThreadCountError)
    else if pageLimit < -1 then Some(PageLimitError)
    else None
  }

  /** A parser built with page limit 0 is accepted, and then refuses every
      page and queues none. */
  lemma {:induction false} ZeroLimitRefusesAll(threadCount: int, pages: seq<Page>)
    requires threadCount >= 1
    ensures Check(threadCount, 0).None?
    ensures var (last, answers) := Feed(0, Gate(0, []), pages);
            |answers| == |pages| && (forall k :: 0 <= k < |pages| ==> !answers[k]) && last == Gate(0, [])
  {
    FeedLimited(0, Gate(0, []), pages);
  }

  /** The last language section is never examined: a scrape covers the
      sections before the last header only. */
  function Examined(headerCount: nat): nat
  {
    if headerCount >= 1 then headerCount - 1 else 0
  }

  class VerbParser {
    const intake: PageIntake
    const store: Store
    /** The language section being scraped. */
    var currentSection: string

    constructor (store: Store, pageLimit: int, refusal: string)
      requires pageLimit >= -1
      ensures this.store == store && currentSection == []
      ensures fresh(intake) && intake.Valid()
      ensures intake.pageLimit == pageLimit && intake.refusal == refusal
      ensures intake.pagesConsumed == 0 && intake.queue == []
    {
      this.store := store;
      intake := new PageIntake(pageLimit, refusal);
      currentSection := [];
    }

    /** `GetTemplates`: the distinct matches of `p` in the current section,
      in first-occurrence order. */
    method GetTemplates(p: Scanner) returns (ts: seq<string>)
      ensures ts == TemplatesIn(p, currentSection)
    {
      var ms := ScanAll(p, currentSection);
      var templates := Texts(currentSection, ms);
      ts := Dedup(templates);
    }

    /** The body of the `if` for a section holding a verb header: look
        the language up, insert the verb, store its templates. */
    method StoreVerb(title: string, language: string, templatePattern: Scanner)
      modifies store
      ensures store.log == VerbCalls(store.respond, templatePattern, title, language, currentSection, old(store.log))
    {
      ghost var log0 := store.log;
      ghost var r := VerbCalls(store.respond, templatePattern, title, language, currentSection, log0);
      var known := store.Send(LanguageExists(language));
      if known.err.None? {
        var verb := store.Send(InsertVerbOf(language, title));
        assert store.log == log0 + [LanguageExists(language), InsertVerbOf(language, title)];
        if verb.err.None? {
          var templates := GetTemplates(templatePattern);
          StoreTemplates(store, templates, verb.id);
          assert r == log0 + [LanguageExists(language), InsertVerbOf(language, title)] + Inserts(templates, verb.id);
        } else {
          assert r == log0 + [LanguageExists(language), InsertVerbOf(language, title)];
        }
      } else {
        assert r == log0 + [LanguageExists(language)];
      }
    }

    /** `scrape`: examines every language section but the last one. */
    method Scrape(page: Page, languagePattern: Scanner, templatePattern: Scanner)
      modifies this, store
      ensures store.log == ScrapeFrom(store.respond, languagePattern, templatePattern, page, 0,
                                       Examined(|Headers(languagePattern, page.text)|), old(store.log))
      ensures |Headers(languagePattern, page.text)| <= 1 ==> store.log == old(store.log)
    {
      var hs := Headers(languagePattern, page.text);
      var sectionCount := |hs|;
      var n := Examined(sectionCount);
      var i := 0;
      while i < sectionCount - 1
        invariant i <= n
        invariant ScrapeFrom(store.respond, languagePattern, templatePattern, page, i, n, store.log) ==
                  ScrapeFrom(store.respond, languagePattern, templatePattern, page, 0, n, old(store.log))
        decreases n - i
      {
        currentSection := Section(page.text, hs, i);
        if Contains(currentSection, VerbMarker) {
          StoreVerb(page.title, ExtractLanguage(page.text, hs[i]), templatePattern);
        }
        i := i + 1;
      }
    }
  }

  /** `NewVerbConsumer` of the first pipeline. */
  method NewVerbConsumer(store: Store, threadCount: int, pageLimit: int) returns (c: VerbParser?, err: Option<string>)
    ensures err == Check(threadCount, pageLimit)
    ensures err.None? <==> c != null
    ensures c != null ==> fresh(c) && fresh(c.intake) && c.store == store && c.intake.Valid() &&
                          c.intake.pageLimit == pageLimit && c.intake.pagesConsumed == 0 && c.intake.queue == [] &&
                          c.intake.refusal == "VerbConsumer is no longer accepting Pages."
  {
    err := Check(threadCount, pageLimit);
    if err.Some? {
      return null, err;
    }
    c := new VerbParser(store, pageLimit, "VerbConsumer is no longer accepting Pages.");
  }

  /** `NewVerbParser` of the second pipeline. */
  method NewVerbParser(store: Store, threadCount: int, pageLimit: int) returns (c: VerbParser?, err: Option<string>)
    ensures err == Check(threadCount, pageLimit)
    ensures err.None? <==> c != null
    ensures c != null ==> fresh(c) && fresh(c.intake) && c.store == store && c.intake.Valid() &&
                          c.intake.pageLimit == pageLimit && c.intake.pagesConsumed == 0 && c.intake.queue == [] &&
                          c.intake.refusal == "VerbParser is no longer accepting Pages."
  {
    err := Check(threadCount, pageLimit);
    if err.Some? {
      return null, err;
    }
    c := new VerbParser(store, pageLimit, "VerbParser is no longer accepting Pages.");
  }
}
