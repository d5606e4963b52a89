/** What the two older pipelines do with one page: for each examined
    language section that holds a `===Verb===` header, ask the database
    whether the section's language is known, insert the verb (the page
    title in that language), and insert each distinct template of the
    section under the new verb id. A section whose language is unknown, or
    whose verb insert fails, is skipped; a failed template insert is only
    logged. The older consumer and parser examine every section but the
    last one; the older worker examines all of them. */
module LegacyScrape {
  import opened Text
  import opened Patterns
  import opened Pages
  import opened Sink
  import opened Distinct

  /** `GetTemplates`: the texts the template pattern matches in a section,
      each kept only at its first occurrence. */
  function TemplatesIn(tp: Scanner, section: string): seq<string>
  {
    var ms := ScanAll(tp, section);
    DistinctBy(Texts(section, ms), Same, {})
  }

  /** One template insert per template, all under the same verb id. */
  function Inserts(ts: seq<string>, verbId: int): seq<Call>
  {
    seq(|ts|, k requires 0 <= k < |ts| => InsertTemplate(ts[k], verbId))
  }

  /** The template loop of `scrape` and `process`: every template is
      inserted, and an error is only logged. */
  method StoreTemplates(store: Store, templates: seq<string>, verbId: int)
    modifies store
    ensures store.log == old(store.log) + Inserts(templates, verbId)
  {
    var j := 0;
    while j < |templates|
      invariant j <= |templates|
      invariant store.log == old(store.log) + Inserts(templates[..j], verbId)
    {
      var _ := store.Send(InsertTemplate(templates[j], verbId));
      assert Inserts(templates[..j + 1], verbId) == Inserts(templates[..j], verbId) + [InsertTemplate(templates[j], verbId)];
      j := j + 1;
    }
    assert templates[..j] == templates;
  }

  /** The calls for a section holding a verb header: a lookup of its
      language, then, when the language is known, the verb insert, then,
      when that succeeds, one insert per distinct template of the section
      under the new verb id. */
  function VerbCalls(respond: Responder, tp: Scanner, title: string, language: string, section: string,
                     log: seq<Call>): seq<Call>
  {
    var look := LanguageExists(language);
    if respond(log, look).err.Some? then log + [look]
    else
      var insert := InsertVerbOf(language, title);
      var reply := respond(log + [look], insert);
      if reply.err.Some? then log + [look, insert]
      else log + [look, insert] + Inserts(TemplatesIn(tp, section), reply.id)
  }

  /** The log after one examined section `i`: nothing happens unless the
      section holds a verb header. */
  function SectionCalls(respond: Responder, lp: Scanner, tp: Scanner, page: Page, i: nat,
                        log: seq<Call>): seq<Call>
    requires i < |Headers(lp, page.text)|
  {
    var hs := Headers(lp, page.text);
    var section := Section(page.text, hs, i);
    if !Contains(section, VerbMarker) then log
    else VerbCalls(respond, tp, page.title, ExtractLanguage(page.text, hs[i]), section, log)
  }

  /** The log after sections `i` up to (not including) `n` are examined. */
  function ScrapeFrom(respond: Responder, lp: Scanner, tp: Scanner, page: Page, i: nat, n: nat,
                      log: seq<Call>): seq<Call>
    requires i <= n <= |Headers(lp, page.text)|
    decreases n - i
  {
    if i == n then log
    else ScrapeFrom(respond, lp, tp, page, i + 1, n, SectionCalls(respond, lp, tp, page, i, log))
  }

  /** The languages of the sections from `i` up to `n` that hold a verb
      header, in page order. */
  function Marked(lp: Scanner, page: Page, i: nat, n: nat): seq<string>
    requires i <= n <= |Headers(lp, page.text)|
    decreases n - i
  {
    var hs := Headers(lp, page.text);
    if i == n then []
    else
      (if Contains(Section(page.text, hs, i), VerbMarker) then [ExtractLanguage(page.text, hs[i])] else [])
      + Marked(lp, page, i + 1, n)
  }

  /** The templates `GetTemplates` returns are the distinct match texts:
      none twice, none missing, none invented, in the order of their first
      occurrence. */
  lemma {:induction false} TemplatesInDistinct(tp: Scanner, section: string, r: seq<string>)
    requires r == TemplatesIn(tp, section)
    ensures var ts := Texts(section, ScanAll(tp, section));
            (forall i, j :: 0 <= i < j < |r| ==> r[i] != r[j]) &&
            (forall t :: t in r <==> t in ts) &&
            (forall i, j :: 0 <= i < j < |r| ==> FirstIndex(ts, Same, r[i]) < FirstIndex(ts, Same, r[j]))
  {
    var ts := Texts(section, ScanAll(tp, section));
    DistinctByKeys(ts, Same, {}, r);
    DistinctByComplete(ts, Same, {}, r);
    DistinctByOrder(ts, Same, {}, r);
    forall t
      ensures t in r <==> t in ts
    {
      assert t in r <==> Same(t) in KeySet(r, Same);
      assert t in ts <==> Same(t) in KeySet(ts, Same);
    }
  }

  /** Each template `GetTemplates` returns is the text of one of the
      pattern's matches. */
  lemma {:induction false} TemplateFrom(tp: Scanner, section: string, t: string) returns (k: nat)
    requires t in TemplatesIn(tp, section)
    ensures k < |ScanAll(tp, section)| && t == section[ScanAll(tp, section)[k].start..ScanAll(tp, section)[k].end]
  {
    var ms := ScanAll(tp, section);
    var ts := Texts(section, ms);
    DistinctByComplete(ts, Same, {}, TemplatesIn(tp, section));
    assert Same(t) in KeySet(TemplatesIn(tp, section), Same);
    assert t in ts;
    k :| 0 <= k < |ts| && ts[k] == t;
  }

  /** Every template handed over is inserted, in order, whatever the
      database answers to each insert. */
  lemma {:induction false} InsertsAttempted(ts: seq<string>, verbId: int)
    ensures |Inserts(ts, verbId)| == |ts|
    ensures TemplatesOf(Inserts(ts, verbId)) == ts
    ensures forall p :: 0 <= p < |ts| ==> Inserts(ts, verbId)[p].InsertTemplate? && Inserts(ts, verbId)[p].verbId == verbId
    decreases |ts|
  {
    if ts != [] {
      InsertsAttempted(ts[1..], verbId);
      assert Inserts(ts, verbId)[1..] == Inserts(ts[1..], verbId);
    }
  }

  /** A section with a verb header asks about its language once. */
  lemma {:induction false} VerbLookups(respond: Responder, tp: Scanner, title: string, language: string,
                                       section: string, log: seq<Call>, r: seq<Call>)
    requires r == VerbCalls(respond, tp, title, language, section, log)
    ensures |log| < |r| && r[..|log|] == log
    ensures LookupsOf(r[|log|..]) == [language]
  {
    var look := LanguageExists(language);
    var added := r[|log|..];
    assert r == log + added;
    var rest := added[1..];
    assert added == [look] + rest;
    InsertsAttempted(TemplatesIn(tp, section), respond(log + [look], InsertVerbOf(language, title)).id);
    assert forall p :: 0 <= p < |rest| ==> LookupOf(rest[p]).None?;
    PickedNone(rest, LookupOf);
    PickedAppend([look], rest, LookupOf);
    assert [look][1..] == [];
  }

  /** Within a section, the verb is inserted only right after a lookup of
      its language that said yes, and under the page title. */
  lemma {:induction false} VerbGuard(respond: Responder, tp: Scanner, title: string, language: string,
                                     section: string, log: seq<Call>, r: seq<Call>)
    requires r == VerbCalls(respond, tp, title, language, section, log)
    ensures |log| <= |r| && r[..|log|] == log
    ensures forall p :: |log| <= p < |r| && r[p].InsertVerbOf? ==>
              p == |log| + 1 && r[p - 1] == LanguageExists(r[p].language) &&
              respond(r[..p - 1], r[p - 1]).err.None? && r[p].word == title
  {
    var look := LanguageExists(language);
    if respond(log, look).err.None? {
      var insert := InsertVerbOf(language, title);
      var reply := respond(log + [look], insert);
      if reply.err.None? {
        InsertsAttempted(TemplatesIn(tp, section), reply.id);
      }
      assert r[..|log| + 1] == log + [look];
    }
  }

  /** Within a section, the templates inserted are all the distinct
      templates of the section, in order and under the new verb id, when the
      language is known and the verb insert succeeds; otherwise none. */
  lemma {:induction false} VerbTemplates(respond: Responder, tp: Scanner, title: string, language: string,
                                         section: string, log: seq<Call>, r: seq<Call>)
    requires r == VerbCalls(respond, tp, title, language, section, log)
    ensures |log| <= |r| && r[..|log|] == log
    ensures var look := LanguageExists(language);
            var insert := InsertVerbOf(language, title);
            var stored := respond(log, look).err.None? && respond(log + [look], insert).err.None?;
            (stored ==> TemplatesOf(r[|log|..]) == TemplatesIn(tp, section)) &&
            (stored ==> forall p :: |log| + 2 <= p < |r| ==>
                          r[p].InsertTemplate? && r[p].verbId == respond(log + [look], insert).id) &&
            (!stored ==> TemplatesOf(r[|log|..]) == [])
  {
    var look := LanguageExists(language);
    var insert := InsertVerbOf(language, title);
    var added := r[|log|..];
    assert r == log + added;
    if respond(log, look).err.None? && respond(log + [look], insert).err.None? {
      var ts := TemplatesIn(tp, section);
      var id := respond(log + [look], insert).id;
      InsertsAttempted(ts, id);
      assert added == [look, insert] + Inserts(ts, id);
      PickedAppend([look, insert], Inserts(ts, id), TemplateOf);
      PickedNone([look, insert], TemplateOf);
    } else {
      PickedNone(added, TemplateOf);
    }
  }

  /** Over a run of sections: the log only grows, and the languages looked
      up are those of the examined sections holding a verb header, in page
      order; a section past `n`, or without a verb header, is never asked
      about. */
  lemma {:induction false} ScrapeLookups(respond: Responder, lp: Scanner, tp: Scanner, page: Page, i: nat, n: nat,
                                         log: seq<Call>, r: seq<Call>)
    requires i <= n <= |Headers(lp, page.text)| && r == ScrapeFrom(respond, lp, tp, page, i, n, log)
    ensures |log| <= |r| && r[..|log|] == log
    ensures LookupsOf(r[|log|..]) == Marked(lp, page, i, n)
    decreases n - i
  {
    if i < n {
      var hs := Headers(lp, page.text);
      var section := Section(page.text, hs, i);
      var mid := SectionCalls(respond, lp, tp, page, i, log);
      if Contains(section, VerbMarker) {
        VerbLookups(respond, tp, page.title, ExtractLanguage(page.text, hs[i]), section, log, mid);
      } else {
        assert mid[|log|..] == [];
      }
      ScrapeLookups(respond, lp, tp, page, i + 1, n, mid, r);
      assert r[|log|..] == mid[|log|..] + r[|mid|..];
      PickedAppend(mid[|log|..], r[|mid|..], LookupOf);
    } else {
      assert r[|log|..] == [];
    }
  }

  /** Over a run of sections: every verb insert comes right after a lookup
      of its language that said yes, and is for the page title. */
  lemma {:induction false} ScrapeVerbGuard(respond: Responder, lp: Scanner, tp: Scanner, page: Page, i: nat, n: nat,
                                           log: seq<Call>, r: seq<Call>)
    requires i <= n <= |Headers(lp, page.text)| && r == ScrapeFrom(respond, lp, tp, page, i, n, log)
    ensures |log| <= |r| && r[..|log|] == log
    ensures forall p :: |log| <= p < |r| && r[p].InsertVerbOf? ==>
              |log| < p && r[p - 1] == LanguageExists(r[p].language) &&
              respond(r[..p - 1], r[p - 1]).err.None? && r[p].word == page.title
    decreases n - i
  {
    if i < n {
      var hs := Headers(lp, page.text);
      var section := Section(page.text, hs, i);
      var mid := SectionCalls(respond, lp, tp, page, i, log);
      if Contains(section, VerbMarker) {
        VerbGuard(respond, tp, page.title, ExtractLanguage(page.text, hs[i]), section, log, mid);
      }
      ScrapeVerbGuard(respond, lp, tp, page, i + 1, n, mid, r);
      forall p | |log| <= p < |mid| && r[p].InsertVerbOf?
        ensures |log| < p && r[p - 1] == LanguageExists(r[p].language) &&
                respond(r[..p - 1], r[p - 1]).err.None? && r[p].word == page.title
      {
        assert r[p] == mid[p] && r[p - 1] == mid[p - 1];
        assert r[..p - 1] == mid[..p - 1];
      }
    }
  }

  /** The calls made never depend on the answers to template inserts:
      two databases that answer every other call alike see the same calls,
      so a failed template insert stops nothing. */
  lemma {:induction false} TemplateRepliesIgnored(respond: Responder, other: Responder, lp: Scanner, tp: Scanner,
                                                  page: Page, i: nat, n: nat, log: seq<Call>)
    requires i <= n <= |Headers(lp, page.text)|
    requires forall l: seq<Call>, c: Call :: !c.InsertTemplate? ==> respond(l, c) == other(l, c)
    ensures ScrapeFrom(respond, lp, tp, page, i, n, log) == ScrapeFrom(other, lp, tp, page, i, n, log)
    decreases n - i
  {
    if i < n {
      var hs := Headers(lp, page.text);
      var section := Section(page.text, hs, i);
      var language := ExtractLanguage(page.text, hs[i]);
      assert VerbCalls(respond, tp, page.title, language, section, log) == VerbCalls(other, tp, page.title, language, section, log);
      TemplateRepliesIgnored(respond, other, lp, tp, page, i + 1, n, SectionCalls(respond, lp, tp, page, i, log));
    }
  }
}
