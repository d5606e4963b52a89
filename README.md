# mutably: a verified model of the wiki-dump verb pipeline

mutably reads a wiki dump (MediaWiki XML) page by page. It cuts each
page's text into language sections and verb sections, picks out the verb
templates, and stores words, verbs, templates and conjugation-table rows
in a database. A small API serves the tables back and parses
`Authorization` headers. A Python script fills the languages table from
the IANA Language Subtag Registry. The repository holds three generations
of the pipeline: `parse/`, `parser/` and `anvil/`. They differ in small
ways, and each generation is modelled as written.

This project models that core in Dafny and proves properties of it:

- **The Dutch conjugator** (module `Dutch`):
  - the regular-expression field extractors, written as explicit leftmost-match functions;
  - the decision tree of `Conjugate` and `addToTable`;
  - the table-id cache.
- **The worker of the current pipeline** (`AnvilWorker`, with `Patterns` for the patterns and `Pages` for language sections). It covers:
  - the cut into language sections and verb sections;
  - template collection;
  - the calls made per section and per page.
- **The workers and scrapers of the two older pipelines**: `LegacyScrape`, `LegacyVerb`, `LegacyWorker`. Their template extraction is an order-preserving dedup (`Distinct`).
- **The page-limit gate** of the three verb parsers (`Intake`), and the constructors' argument checks (`AnvilVerbParser`, `LegacyVerb`).
- **The token loops** of the three `ProcessPages` functions (`PageSource`), and the namespace filter of the current one (`AnvilParser`, `ParsePage`, `ParserParser`).
- **From the API:**
  - the assembly of a conjugation table (`ApiModel`);
  - the basic-auth and bearer header parsing (`AuthLayer`).
- **The language-registry import** (`ImportLanguages`). The registry's record format is that of section 3.1 of RFC 5646.

How things outside the code are modelled:

- **Storage:** the database and the conjugator registry are a log of calls (`Sink.Store`). Their replies come from a reply function that is a parameter of the model. Every property holds for every possible reply.
- **Regular expressions:** each is a function that says where it matches (`Patterns`, `Dutch`). The compiled pattern objects a worker holds are opaque values. Lemmas show that reading their answers loses nothing for the real patterns.
- **XML decoder:** it is a sequence of pulls (`PageSource.Pull`).
- **Base64 decoding:** it is a function parameter (`AuthLayer.Decoder`, section 4 of RFC 4648).

Shared members:

- The first and second pipelines' verb parsers are one Go type under two names. `parse/verb/verb_consumer.go` and `parser/verb/verb_parser.go` hold the same code, so `LegacyVerb` and `LegacyScrape` model both. The table below cites the first file.
- `parse/page.go` and `parser/parser.go` share `PageSource.Pump` through `ParsePage.ProcessPages` and `ParserParser.ProcessPages`.
- `extractLanguage` is identical in four files. It is `Pages.ExtractLanguage`, cited once.

Two behaviours of the code that are easy to miss:

- `Conjugate` returns nil for every verb form that names an infinitive. A missing mood, tense, number or person is not an error.
- There is no branch that ignores verb-form headers.

## Model

| member | source | states |
|---|---|---|
| `Dutch.Field` | anvil/model/inflection/dutch.go:31-33 | the capture of `key(.{n})` has n characters and no newline, and exists exactly when some position matches |
| `Dutch.PersonDigits` | anvil/model/inflection/dutch.go:30 | the capture of `p=(\d{1,2})` is one or two digits, and exists exactly when `p=` is followed by a digit somewhere |
| `Dutch.InfRef` | anvil/model/inflection/dutch.go:35 | the infinitive reference is non-empty and holds no vertical bar |
| `Dutch.InfRefInTemplate` | anvil/model/inflection/dutch.go:70 | an extracted reference stands in the template between a vertical bar and `}}` |
| `Dutch.InfRefFound` | anvil/model/inflection/dutch.go:70-73 | conversely, a vertical bar, a non-empty text without one, and `}}` anywhere in a template yield a reference |
| `Dutch.TenseName` | anvil/model/inflection/dutch.go:107-115 | a tense column is named exactly for the tokens `pres` and `past` |
| `Dutch.PersonsOf` | anvil/model/inflection/dutch.go:127-131 | the persons of a form are one to three characters: the `p=` digits or `123` |
| `Dutch.Conjugator.constructor` | anvil/model/inflection/dutch.go:27-37 | a new conjugator has an empty table cache |
| `Dutch.Conjugator.Conjugate` | anvil/model/inflection/dutch.go:54-91 | calls made, new cache, table id and error are those of the conjugation specification `ConjugateSpec` |
| `Dutch.Conjugator.AddToTable` | anvil/model/inflection/dutch.go:94-148 | appends exactly the verb-form inserts `TableCalls` of the verb |
| `Dutch.Conjugator.FilePersons` | anvil/model/inflection/dutch.go:132-146 | appends one singular insert per person digit, the person carried from digit to digit |
| `Dutch.InfinitiveOpensTable` | anvil/model/inflection/dutch.go:56-67 | `{{nl-verb}}` makes exactly an infinitive insert then a present-plural insert of the same text into the new table, caches the id, and returns the plural insert's error |
| `Dutch.InvalidTemplateRejected` | anvil/model/inflection/dutch.go:70-73 | a verb form with no infinitive reference fails with "Invalid template for verb …" and makes no call and no cache change |
| `Dutch.CacheHit` | anvil/model/inflection/dutch.go:75-78 | a cached reference reuses its table id, inserts no infinitive, leaves the cache alone; every call made files into that table |
| `Dutch.CacheMiss` | anvil/model/inflection/dutch.go:79-87 | an uncached reference is inserted as infinitive with the verb's language id first, and its new id is cached and used for every later call |
| `Dutch.VerbFormCachedAndSucceeds` | anvil/model/inflection/dutch.go:75-90 | past the reference check the reference is cached with the table id, other cache entries are kept, and the result is no error whatever the storage answers |
| `Dutch.TableCallsShape` | anvil/model/inflection/dutch.go:94-148 | every call `addToTable` makes is a verb-form insert of the verb's text into the verb's table |
| `Dutch.PersonCallsShape` | anvil/model/inflection/dutch.go:133-146 | the person loop makes exactly one singular insert per character |
| `Dutch.NonIndicativeFilesNothing` | anvil/model/inflection/dutch.go:95-101 | a mood other than `ind` files no verb form and the conjugation still succeeds |
| `Dutch.TenseAndNumberGate` | anvil/model/inflection/dutch.go:103-120 | no tense, a tense other than `pres`/`past`, or no number files nothing; otherwise `pres` files under `present` and `past` under `past` |
| `Dutch.PluralFilesOnce` | anvil/model/inflection/dutch.go:121-125 | number `pl` files exactly one plural insert with no person |
| `Dutch.PersonCallsCarry` | anvil/model/inflection/dutch.go:132-141 | each singular insert has the person its digit selects given the previous insert's person |
| `Dutch.SingularFilesPerDigit` | anvil/model/inflection/dutch.go:126-146 | a non-plural number files one singular insert per digit, digits 1/2/3 as first/second/third, any other digit repeating the previous person, "" for the first |
| `Dutch.AllPersonsByDefault` | anvil/model/inflection/dutch.go:128-131 | without `p=` a singular form is filed under first, second and third, in that order |
| `Patterns.LanguageHeaderAt` | anvil/parser/verb/worker.go:46 | a language-header match is `==`, a non-empty `=`-free name, `==` and a newline, at a line start |
| `Patterns.VerbHeaderAt` | anvil/parser/verb/worker.go:47 | a verb-header match is a whole line: at least three `=`, `Verb`, at least three `=` |
| `Patterns.AnyHeaderAt` | anvil/parser/verb/worker.go:45 | a header match starts `==` at a line start and runs to the last line end preceded by `==` |
| `Patterns.BraceTemplateAt` | anvil/parser/verb/worker.go:49 | a template match is an optional `# ` then `{{`, text without `{`, `}}`; the capture is the braces part |
| `Patterns.LineTemplateAt` | parser/verb/worker.go:34 | a line-template match is whole lines from `{{` to `}}`, no `{` inside, `verb` strictly inside |
| `Patterns.LineTemplateFacts` | parser/verb/worker.go:34 | what a line-template match guarantees about its text, read back from the match |
| `Patterns.FirstMatchFrom` | anvil/parser/verb/worker.go:180 | the leftmost match at or after a position, and none when no position matches |
| `Patterns.FindAll` | anvil/parser/verb/worker.go:70 | all matches are real matches, ordered, non-overlapping, and none is skipped before the first |
| `Patterns.SearchFinds` | anvil/parser/verb/worker.go:180 | reading a compiled pattern's leftmost match gives exactly `FirstMatchFrom` |
| `Patterns.ScanAllScans` | anvil/parser/verb/worker.go:70 | reading a compiled pattern's matches gives exactly `FindAll` |
| `Pages.SectionEnd` | anvil/parser/verb/worker.go:76-83 | section i ends at the next header's start, or at the end of the text for the last |
| `Pages.SectionsPartition` | anvil/parser/verb/worker.go:70-83 | sections are disjoint, header text belongs to no section, and text before the first header to none |
| `Pages.SectionsCover` | anvil/parser/verb/worker.go:70-83 | every position from the first header on is in a header or in a section |
| `Pages.Headers` | anvil/parser/verb/worker.go:70 | the language headers used are ordered, non-overlapping and long enough to hold a name |
| `Pages.LanguageHeadersExact` | anvil/parser/verb/worker.go:70 | for the language-header pattern the headers used are exactly all its matches |
| `Pages.LanguageHeaderShape` | anvil/parser/verb/worker.go:200-202 | `extractLanguage` gives the lower-cased, non-empty name between `==` and `==\n` |
| `AnvilWorker.VerbSectionsSpans` | anvil/parser/verb/worker.go:175-197 | the texts `getVerbSections` returns are the slices of the verb spans |
| `AnvilWorker.VerbSpansWithin` | anvil/parser/verb/worker.go:180-193 | every verb section lies inside the language section after where its search resumed |
| `AnvilWorker.VerbSpansChained` | anvil/parser/verb/worker.go:192 | each search resumes where the previous verb section stopped (`end` is carried) |
| `AnvilWorker.VerbSpansOrdered` | anvil/parser/verb/worker.go:175-197 | verb sections are disjoint and in increasing order |
| `AnvilWorker.VerbSpanStart` | anvil/parser/verb/worker.go:180-184 | each verb section starts right after the leftmost verb-header match following the previous one |
| `AnvilWorker.VerbSpanStop` | anvil/parser/verb/worker.go:187-193 | each verb section stops at the leftmost header match after its start, or runs to the end |
| `AnvilWorker.VerbSpansComplete` | anvil/parser/verb/worker.go:180-182 | the cut stops only when no verb header remains after the last section |
| `AnvilWorker.TemplateList` | anvil/parser/verb/worker.go:143-146 | a verb section has a template list exactly when the template pattern matches in it |
| `AnvilWorker.TemplateListShape` | anvil/parser/verb/worker.go:148-166 | the list is the whole first match, then the captures of all later matches exactly when the first is indicative (holds `verb form` or `verb-form`) |
| `AnvilWorker.BraceTemplatesShape` | anvil/parser/verb/worker.go:49 | with the compiled template pattern, the first template of a verb section is the leftmost match, `{{…}}` optionally after `# `, and every later template is `{{`, text without `{`, then `}}` |
| `AnvilWorker.ListsBraceShaped` | anvil/parser/verb/worker.go:143-170 | the lists kept for the verb sections, and the empty ones after the first section without a match, keep that shape |
| `AnvilWorker.Lists` | anvil/parser/verb/worker.go:134-170 | `getTemplates` returns one list per verb section |
| `AnvilWorker.ListsCut` | anvil/parser/verb/worker.go:144-146 | a verb section without a template match stops the loop: it and all later lists stay empty |
| `AnvilWorker.TemplatesAppended` | anvil/parser/verb/worker.go:111-118 | storing a verb's templates only appends template inserts under that verb id and conjugator calls |
| `AnvilWorker.TemplatesStored` | anvil/parser/verb/worker.go:111-112 | every template of the verb is inserted, once each, in order |
| `AnvilWorker.ConjugatedIffStored` | anvil/parser/verb/worker.go:112-117 | a template goes to the conjugator exactly when its insert succeeded, right after it |
| `AnvilWorker.ListsAppended` | anvil/parser/verb/worker.go:105-119 | storing the verbs only appends verb inserts for the word and language, template inserts and conjugator calls |
| `AnvilWorker.VerbFailureLast` | anvil/parser/verb/worker.go:106-110 | a failed verb insert is the last call: the remaining lists are abandoned |
| `AnvilWorker.ListsStep` | anvil/parser/verb/worker.go:105-118 | a successful verb insert is followed by exactly its list's templates |
| `AnvilWorker.ListsStepEnds` | anvil/parser/verb/worker.go:105-119 | whether the calls end in a failed verb insert is decided by the later lists' calls |
| `AnvilWorker.ListsCounted` | anvil/parser/verb/worker.go:105-119 | one verb insert per list unless one fails; at most one per list |
| `AnvilWorker.ListsStored` | anvil/parser/verb/worker.go:105-119 | without a failed verb insert all templates of all lists are inserted in order; with one, the lists before it are |
| `AnvilWorker.StepShape` | anvil/parser/verb/worker.go:85-103 | a qualifying section inserts its language first, then the word when no word id is known, then stores its verbs |
| `AnvilWorker.PageCallsMore` | anvil/parser/verb/worker.go:97-101 | the calls of a qualifying section are calls `process` may make for the page |
| `AnvilWorker.StepAppended` | anvil/parser/verb/worker.go:81-120 | a section only appends calls `process` may make, and none unless it qualifies |
| `AnvilWorker.StepWord` | anvil/parser/verb/worker.go:99-101 | a section inserts the title as a word only when no word id was known, right after its language insert |
| `AnvilWorker.OneLanguageMore` | anvil/parser/verb/worker.go:97 | a qualifying section inserts exactly one language |
| `AnvilWorker.StepLanguages` | anvil/parser/verb/worker.go:85-97 | a section inserts its language exactly when it holds `===Verb===` and its language has a conjugator |
| `AnvilWorker.ProcessAppended` | anvil/parser/verb/worker.go:63-122 | processing a page only appends calls `process` may make |
| `AnvilWorker.ProcessLanguages` | anvil/parser/verb/worker.go:81-97 | the languages inserted are those of the qualifying sections, in page order; an unknown language is skipped and later sections still run |
| `AnvilWorker.ProcessQuiet` | anvil/parser/verb/worker.go:85-95 | a page with no qualifying section makes no call at all |
| `AnvilWorker.WordOnce` | anvil/parser/verb/worker.go:99-101 | the title is inserted as a word at most once per page, and never when a word id is already known |
| `AnvilWorker.WordFirst` | anvil/parser/verb/worker.go:97-101 | the word is inserted right after the language of the first qualifying section |
| `AnvilWorker.Worker.constructor` | anvil/parser/verb/worker.go:40-52 | a new worker holds the compiled patterns, the store and the conjugator registry |
| `AnvilWorker.Worker.GetVerbSections` | anvil/parser/verb/worker.go:175-197 | returns exactly the verb-section texts of the current language section |
| `AnvilWorker.Worker.SectionTemplates` | anvil/parser/verb/worker.go:143-167 | returns the template list of one verb section |
| `AnvilWorker.Worker.GetTemplates` | anvil/parser/verb/worker.go:134-170 | returns the template lists of all verb sections, empty from the first section without a match; for the patterns `NewWorker` compiles, every list has the shape of `BraceTemplatesShape` |
| `AnvilWorker.Worker.StoreTemplates` | anvil/parser/verb/worker.go:111-118 | the calls made storing one verb's templates are `TemplatesFrom` |
| `AnvilWorker.Worker.StoreVerbs` | anvil/parser/verb/worker.go:105-119 | the calls made storing the verbs are `ListsCalls` |
| `AnvilWorker.Worker.Process` | anvil/parser/verb/worker.go:63-122 | the calls made for a page are `ProcessFrom` from section 0 with no word id |
| `Intake.FeedLimited` | anvil/parser/verb/verb_parser.go:88-99 | with limit N the next N − consumed calls are accepted and queued in call order, every later one refused; the counter stays within 0..N |
| `Intake.FeedUnlimited` | anvil/parser/verb/verb_parser.go:92-97 | with limit −1 every call is accepted and queued in order and the counter never moves |
| `Intake.PageIntake.constructor` | anvil/parser/verb/verb_parser.go:47-51 | a new gate has its limit, a zero counter and an empty queue |
| `Intake.PageIntake.Parse` | anvil/parser/verb/verb_parser.go:87-100 | accepts exactly when the gate is open, refuses with the parser's error otherwise changing nothing, and keeps the counter bound |
| `AnvilVerbParser.Check` | anvil/parser/verb/verb_parser.go:37-42 | construction fails exactly for thread count < 1 (checked first), or a page limit < −1 or 0 |
| `AnvilVerbParser.NewVerbParser` | anvil/parser/verb/verb_parser.go:35-55 | a parser is returned exactly when the check passes, with an empty gate |
| `LegacyVerb.Check` | parse/verb/verb_consumer.go:49-54 | construction fails exactly for thread count < 1 or a page limit < −1; 0 is accepted |
| `LegacyVerb.ZeroLimitRefusesAll` | parse/verb/verb_consumer.go:100-103 | a parser built with limit 0 refuses every page and queues none |
| `LegacyVerb.VerbParser.constructor` | parse/verb/verb_consumer.go:60-66 | a new parser has an empty gate with its limit and an empty current section |
| `LegacyVerb.VerbParser.GetTemplates` | parse/verb/verb_consumer.go:168-183 | returns the distinct match texts of the current section in first-occurrence order |
| `LegacyVerb.VerbParser.StoreVerb` | parse/verb/verb_consumer.go:143-161 | the calls made for a section with a verb header are `VerbCalls` |
| `LegacyVerb.VerbParser.Scrape` | parse/verb/verb_consumer.go:114-164 | the calls made are those of every language section but the last; a page with at most one header makes none |
| `LegacyVerb.NewVerbConsumer` | parse/verb/verb_consumer.go:47-76 | a consumer is returned exactly when the check passes, with an empty gate |
| `LegacyVerb.NewVerbParser` | parser/verb/verb_parser.go:47-75 | a parser is returned exactly when the check passes, with an empty gate |
| `LegacyScrape.StoreTemplates` | parse/verb/verb_consumer.go:156-161 | one template insert per template, in order, whatever the replies |
| `LegacyScrape.TemplatesInDistinct` | parse/verb/verb_consumer.go:169-180 | the templates are the match texts without repeats: each distinct match exactly once, first-occurrence order |
| `LegacyScrape.TemplateFrom` | parse/verb/verb_consumer.go:169 | every template returned is the text of one match |
| `LegacyScrape.InsertsAttempted` | parse/verb/verb_consumer.go:156-161 | every template handed over is inserted under the verb id, in order |
| `LegacyScrape.VerbLookups` | parse/verb/verb_consumer.go:143-146 | a section with a verb header looks its language up exactly once |
| `LegacyScrape.VerbGuard` | parse/verb/verb_consumer.go:143-152 | a verb is inserted only right after a lookup of its language that said yes |
| `LegacyScrape.VerbTemplates` | parse/verb/verb_consumer.go:148-161 | after a successful verb insert all distinct templates are inserted; after a failed lookup or verb insert none |
| `LegacyScrape.ScrapeLookups` | parse/verb/verb_consumer.go:130-146 | the languages looked up are those of the examined sections holding `===Verb===`, in order |
| `LegacyScrape.ScrapeVerbGuard` | parse/verb/verb_consumer.go:130-152 | over a page, every verb insert follows a successful lookup of its language |
| `LegacyScrape.TemplateRepliesIgnored` | parse/verb/verb_consumer.go:157-160 | a failed template insert changes nothing that follows: the calls do not depend on its reply |
| `Distinct.DistinctByKeys` | parse/verb/verb_consumer.go:175-180 | the kept elements have pairwise distinct keys, none already seen |
| `Distinct.DistinctByComplete` | parse/verb/verb_consumer.go:175-180 | every key not already seen is kept |
| `Distinct.DistinctByFirst` | parse/verb/verb_consumer.go:176-178 | each kept element is the first occurrence of its key |
| `Distinct.DistinctByOrder` | parse/verb/verb_consumer.go:175-180 | kept elements are in the order of their first occurrences |
| `Distinct.Dedup` | parse/verb/verb_consumer.go:171-180 | the `haveSeen` loop computes the order-preserving dedup |
| `LegacyWorker.Worker.constructor` | parser/verb/worker.go:30-37 | a new worker holds the language-header and line-template patterns |
| `LegacyWorker.Worker.GetTemplates` | parser/verb/worker.go:100-114 | returns the distinct line-template texts of the current section in first-occurrence order |
| `LegacyWorker.Worker.StoreVerb` | parser/verb/worker.go:75-93 | the calls made for a section with a verb header are `VerbCalls` |
| `LegacyWorker.Worker.Process` | parser/verb/worker.go:46-96 | the calls made are those of every language section, the last one included |
| `LegacyWorker.LineTemplateMatchShape` | parser/verb/worker.go:34 | a line-template match runs from a line start with `{{` to a line end with `}}` |
| `LegacyWorker.LineTemplateMatchVerb` | parser/verb/worker.go:34 | a line-template match holds `verb` away from both pairs of braces |
| `LegacyWorker.LineTemplateMatchBraces` | parser/verb/worker.go:34 | a line-template match holds no `{` after its opening braces |
| `LegacyWorker.LineTemplatesShape` | parser/verb/worker.go:101-113 | every template returned is whole lines from `{{` to `}}`, holds `verb`, and no `{` after the opening braces |
| `PageSource.OfferedUnskipped` | anvil/parser/parser.go:31-33 | no page offered to the parser has a rejected title |
| `PageSource.OfferedFiltered` | anvil/parser/parser.go:27-35 | the filtered pages are exactly the unfiltered ones whose title is not rejected, in order |
| `PageSource.RunOrder` | anvil/parser/parser.go:19-35 | pages are handed over in document order: a prefix of the offered pages |
| `PageSource.RunStops` | anvil/parser/parser.go:35-41 | every page but the last was answered (true, no error); a stop returns the consumer's error, nil on (false, nil) |
| `PageSource.RunComplete` | anvil/parser/parser.go:19-46 | every offered page is handed over unless the consumer's last answer stopped the loop |
| `PageSource.RunErrors` | anvil/parser/parser.go:19-38 | an error returned is the consumer's own or the decoder's, never the end of input |
| `PageSource.AsWrittenSwallowsDecoderErrors` | anvil/parser/parser.go:19-22 | as written, a decoder error is never returned |
| `PageSource.MalformedInputCounterexample` | anvil/parser/parser.go:19-22 | a document whose first token fails: as written nil, corrected the syntax error |
| `PageSource.AsWrittenAgreesWithoutErrors` | anvil/parser/parser.go:19-46 | without decoder errors other than the end of input, as written and corrected agree |
| `PageSource.Pump` | anvil/parser/parser.go:17-47 | the token loop's pages and error are those of `Run` |
| `AnvilParser.FirstColon` | anvil/parser/parser.go:50 | a colon-free namespace followed by `:` is the text before the first colon |
| `AnvilParser.SpecialPageNamespaces` | anvil/parser/parser.go:49-61 | a title is special exactly when it starts with one of User, Template, Module, Category, Thread, Talk and a colon |
| `AnvilParser.ProcessPages` | anvil/parser/parser.go:17-47 | no special page reaches the parser; the pages are a prefix of the non-special pages in order, and all of them unless the parser's last answer was to stop or an error |
| `ParsePage.ProcessPages` | parse/page.go:46-72 | every page element reaches the consumer in order until it stops the loop |
| `ParserParser.ProcessPages` | parser/parser.go:16-42 | every page element reaches the parser in order until it stops the loop |
| `ApiModel.PlaceRoutes` | api/model/model.go:246-261 | each list gains the word at its end exactly when the form goes there, and is unchanged otherwise |
| `ApiModel.PersonUnion` | api/model/model.go:245-271 | the person constants are distinct single bits: a singular form of any union of them goes to the list of each person in the union and to no other, and the plural list is unchanged |
| `ApiModel.TenseInflection.constructor` | api/model/model.go:236-243 | four empty lists |
| `ApiModel.TenseInflection.Consume` | api/model/model.go:246-261 | the lists become `Place` of the old lists: plural to plural, singular by person bit, any other number nowhere |
| `ApiModel.PlaceAllAppend` | api/model/model.go:307-316 | consuming one more row is one more `Consume` |
| `ApiModel.FoldSeparatesTenses` | api/model/model.go:306-316 | the fold puts tense 1 rows into the present table and tense 2 rows into the past table |
| `ApiModel.PlaceAllLists` | api/model/model.go:249-259 | each list of a fold is what it held plus the forms routed to it, in row order |
| `ApiModel.ConjugationTable.constructor` | api/model/model.go:318-322 | the table holds the infinitive and both tenses |
| `ApiModel.GetConjugationTable` | api/model/model.go:282-323 | a missing infinitive fails with "word … does not exist", a lookup error is returned, otherwise the tables are the fold of the rows |
| `Text.SplitCount` | api/model/auth_layer.go:102 | `strings.Split` gives one more field than separators |
| `Text.SplitFields` | api/model/auth_layer.go:114 | no field of a split holds the separator |
| `Text.SplitJoin` | api/model/auth_layer.go:114 | joining the fields with the separator gives back the text |
| `AuthLayer.GetCredentials` | api/model/auth_layer.go:100-120 | not two space-separated fields fails "username:password required but missing"; a decode error is returned; on success user + ":" + password is the decoded text and neither holds `:` |
| `AuthLayer.CredentialsRoundTrip` | api/model/auth_layer.go:114-119 | colon-free credentials encoded under any scheme word are read back |
| `AuthLayer.SchemeIgnored` | api/model/auth_layer.go:102-108 | the scheme word is never inspected |
| `AuthLayer.ColonCountEnforced` | api/model/auth_layer.go:114-117 | a decoded text without exactly one `:` fails "bad authorization string" |
| `AuthLayer.BearerToken` | api/model/auth_layer.go:78-81 | accepted exactly for two fields with the first `Bearer`, else "bad token header"; the header is `Bearer ` + token |
| `AuthLayer.BearerRoundTrip` | api/model/auth_layer.go:78-81 | any space-free token behind `Bearer ` is accepted |
| `ImportLanguages.RunFrom` | database/import-languages.py:35 | a run of lines with one key ends at the first line with the other key |
| `ImportLanguages.GroupByFlatten` | database/import-languages.py:35 | the groups hold all lines, in order |
| `ImportLanguages.GroupByKeys` | database/import-languages.py:35 | every group is non-empty and its key is that of each of its lines |
| `ImportLanguages.GroupByMaximal` | database/import-languages.py:35 | neighbouring groups have different keys, so a record is a maximal run of non-`%%` lines |
| `ImportLanguages.SecondField` | database/import-languages.py:39-40 | `split(": ")[1]` exists exactly when the line holds `": "` |
| `ImportLanguages.DropBreak` | database/import-languages.py:39 | `[:-1]` removes the line break |
| `ImportLanguages.FieldLine` | database/import-languages.py:39-40 | a `Name: value` line with colon-free parts yields its value |
| `ImportLanguages.ExtractRecord` | database/import-languages.py:39-40 | the tag is the second line's value, the description the third line's value lower-cased |
| `ImportLanguages.StoredKeys` | database/import-languages.py:45-53 | the `SELECT exists` query is membership of the description among stored rows |
| `ImportLanguages.LoadDistinct` | database/import-languages.py:35-59 | the insert loop is an order-preserving removal of duplicate descriptions, failing exactly when a record cannot be read |
| `ImportLanguages.ImportFirstWins` | database/import-languages.py:22-60 | into an empty table: distinct descriptions, each row the first record with its description, in file order, every description present |
| `ImportLanguages.ImportLanguagesInto` | database/import-languages.py:6-60 | a non-empty table gets nothing; an unreadable record commits nothing; otherwise the rows are `Import` |

## Left out

- Concurrency: the worker goroutines, channels, the wait group, `Start`, `Stop`, `Wait`, `coordinateJobs` and `spawnWorkers`. It also covers the lock on the Dutch cache. A send on the job queue is an append to a sequence, and the cache is a map used sequentially.
- SQL storage and its retries: the database is a log of calls answered by a reply function. Every property holds for every reply.
- The query methods of `api/model/model.go`: `GetInfinitive` is an input datatype `Infinitive`, and the query's rows are an input sequence.
- `ApiModel.GetConjugationTable`: a failing verb-forms query is not modelled, and neither is a `Scan` error (it is ignored and leaves zero values).
- `ApiModel.GetConjugationTable` requires every row's tense to be 1 or 2. Go panics on any other tense id (index out of range), and the model does not capture the panic.
- The XML tokenizer and `DecodeElement`: a document is a sequence of pulls, each with a token or an error. The error of `DecodeElement` is ignored by the code and so is absent. A pull sequence that ends without the decoder's end-of-input error is read as the end of input.
- Regular-expression engines: each pattern is an explicit match function. The anvil header pattern `(?m)^={2,}.*={2,}$` is read with `.` matching a newline (rubex `(?m)`). Only where its match starts is used.
- Base64 decoding (section 4 of RFC 4648) is the parameter `AuthLayer.Decoder`. JWT parsing, signing and middleware are not part of this model.
- Python's `str.lower` is Unicode-aware. The model lower-cases ASCII letters only (`Text.ToLower`); Go's `strings.ToLower` in `extractLanguage` is modelled the same way.
- The conjugator registry of the anvil worker is a set of language names. `Conjugate` is recorded as a call in the log, and its effect is the separate `Dutch` model. `inflection.Conjugators` is not part of this model.
- `Dutch.TableCalls`: the modelled `InsertAsTense` call carries the word's text and its table id. Go passes the whole `*Verb`, and its language id and template are not recorded in the call.
- Go's `int` width is not modelled: the page counter and the ids are unbounded integers.
- `LegacyScrape.VerbCalls`: the `LanguageExists` answer is read as "yes" when the reply carries no error.
- The CLI, the REST controllers, the front end and the type-only and stub files are not part of this model.

## Findings

| source | as written | input that shows it | evidently intended | confidence | as-written member | corrected member |
|---|---|---|---|---|---|---|
| anvil/parser/parser.go:19-22 | the loop condition `t != nil` is tested before `e != nil`. `Token` never returns a token together with an error, so the error check is dead and a malformed document ends with nil. The same holds in parse/page.go:48-51 and parser/parser.go:18-21 | a document whose first `Token` call returns no token and the error `XML syntax error on line 1: unexpected EOF` | a decoder error other than the end of input is returned | not executed | `PageSource.MalformedInputCounterexample` | `PageSource.Pump` |
