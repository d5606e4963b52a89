/** The worker of the current pipeline. For each language section of a
    page that holds a `===Verb===` header and whose language has a
    conjugator, it registers the language and (once per page) the word,
    cuts the section into verb sections, collects the templates of each,
    and stores every template of every verb, handing the stored ones to the
    conjugator. */
module AnvilWorker {
  import opened Text
  import opened Patterns
  import opened Pages
  import opened Sink

  /** The compiled patterns a worker holds: any header, language header,
      verb header and verb template. */
  datatype Regexps = Regexps(header: Finder, language: Scanner, verb: Finder, template: Scanner)

  /** The patterns `NewWorker` compiles. */
  const Rubex := Regexps(Finds(AnyHeader), Scans(LanguageHeader), Finds(VerbHeader), Scans(BraceTemplate))

  /** One verb section: the search for it resumed at `origin`, its text
      starts at `start` (right after the verb header) and stops at `stop`. */
  datatype Span = Span(origin: nat, start: nat, stop: nat)

  /** The verb sections of `sec` found when the search resumes at `end`:
      a verb header is looked for in the rest of the text, and the section
      after it runs to the next header of any level or to the end. */
  function VerbSpansFrom(rx: Regexps, sec: string, end: nat): (r: seq<Span>)
    requires end <= |sec|
    decreases |sec| - end
  {
    match Search(rx.verb, sec[end..])
    case None => []
    case Some(m) =>
      var start := end + m.end;
      match Search(rx.header, sec[start..])
      case None => [Span(end, start, |sec|)]
      case Some(h) =>
        var stop := start + h.start;
        [Span(end, start, stop)] + VerbSpansFrom(rx, sec, stop)
  }

  /** The texts of the verb sections found from `end`: the same cut as
      `VerbSpansFrom`, keeping the text between each span's start and stop. */
  function VerbSectionsFrom(rx: Regexps, sec: string, end: nat): seq<string>
    requires end <= |sec|
    decreases |sec| - end
  {
    match Search(rx.verb, sec[end..])
    case None => []
    case Some(m) =>
      var start := end + m.end;
      match Search(rx.header, sec[start..])
      case None => [sec[start..]]
      case Some(h) =>
        var stop := start + h.start;
        [sec[start..stop]] + VerbSectionsFrom(rx, sec, stop)
  }

  /** The texts of the verb sections of a language section. */
  function VerbSections(rx: Regexps, sec: string): seq<string>
  {
    VerbSectionsFrom(rx, sec, 0)
  }

  /** Each verb section's text is the text of its span. */
  lemma {:induction false} VerbSectionsSpans(rx: Regexps, sec: string, end: nat)
    requires end <= |sec|
    ensures var r := VerbSpansFrom(rx, sec, end);
            |VerbSectionsFrom(rx, sec, end)| == |r| &&
            forall k :: 0 <= k < |r| ==>
              r[k].start <= r[k].stop <= |sec| && VerbSectionsFrom(rx, sec, end)[k] == sec[r[k].start..r[k].stop]
    decreases |sec| - end
  {
    if Search(rx.verb, sec[end..]).Some? {
      var m := Search(rx.verb, sec[end..]).value;
      var start := end + m.end;
      if Search(rx.header, sec[start..]).Some? {
        var h := Search(rx.header, sec[start..]).value;
        var stop := start + h.start;
        VerbSectionsSpans(rx, sec, stop);
        var r := VerbSpansFrom(rx, sec, end);
        var t := VerbSectionsFrom(rx, sec, end);
        assert r == [Span(end, start, stop)] + VerbSpansFrom(rx, sec, stop);
        assert t == [sec[start..stop]] + VerbSectionsFrom(rx, sec, stop);
        assert forall k :: 1 <= k < |r| ==>
          r[k] == VerbSpansFrom(rx, sec, stop)[k - 1] && t[k] == VerbSectionsFrom(rx, sec, stop)[k - 1];
      }
    }
  }

  /** Every verb section lies after the point the search resumed from and
      inside the text, and follows its origin. */
  lemma {:induction false} VerbSpansWithin(rx: Regexps, sec: string, end: nat)
    requires end <= |sec|
    ensures var r := VerbSpansFrom(rx, sec, end);
            forall k :: 0 <= k < |r| ==> end <= r[k].origin < r[k].start <= r[k].stop <= |sec|
    ensures var r := VerbSpansFrom(rx, sec, end);
            |r| > 0 ==> r[0].origin == end
    decreases |sec| - end
  {
    var r := VerbSpansFrom(rx, sec, end);
    if |r| > 1 {
      var m := Search(rx.verb, sec[end..]).value;
      var start := end + m.end;
      var h := Search(rx.header, sec[start..]).value;
      var rest := VerbSpansFrom(rx, sec, start + h.start);
      assert r == [Span(end, start, start + h.start)] + rest;
      VerbSpansWithin(rx, sec, start + h.start);
      assert forall k :: 1 <= k < |r| ==> r[k] == rest[k - 1];
    }
  }

  /** Each search resumes where the previous verb section stopped. */
  lemma {:induction false} VerbSpansChained(rx: Regexps, sec: string, end: nat, k: nat)
    requires end <= |sec| && k + 1 < |VerbSpansFrom(rx, sec, end)|
    ensures VerbSpansFrom(rx, sec, end)[k].stop == VerbSpansFrom(rx, sec, end)[k + 1].origin
    decreases |sec| - end
  {
    var m := Search(rx.verb, sec[end..]).value;
    var start := end + m.end;
    var h := Search(rx.header, sec[start..]).value;
    var rest := VerbSpansFrom(rx, sec, start + h.start);
    assert VerbSpansFrom(rx, sec, end) == [Span(end, start, start + h.start)] + rest;
    if k > 0 {
      VerbSpansChained(rx, sec, start + h.start, k - 1);
    }
  }

  /** The verb sections are disjoint and in increasing order. */
  lemma {:induction false} VerbSpansOrdered(rx: Regexps, sec: string, end: nat, j: nat, k: nat)
    requires end <= |sec| && j < k < |VerbSpansFrom(rx, sec, end)|
    ensures VerbSpansFrom(rx, sec, end)[j].stop < VerbSpansFrom(rx, sec, end)[k].start
    decreases k - j
  {
    VerbSpansWithin(rx, sec, end);
    VerbSpansChained(rx, sec, end, j);
    if j + 1 < k {
      VerbSpansOrdered(rx, sec, end, j + 1, k);
    }
  }

  /** Each verb section starts where the verb pattern's match ends, when
      searched from the section's origin. */
  lemma {:induction false} VerbSpanStart(rx: Regexps, sec: string, end: nat, k: nat)
    requires end <= |sec| && k < |VerbSpansFrom(rx, sec, end)|
    ensures var sp := VerbSpansFrom(rx, sec, end)[k];
            sp.origin <= |sec| &&
            Search(rx.verb, sec[sp.origin..]).Some? && sp.start == sp.origin + Search(rx.verb, sec[sp.origin..]).value.end
    decreases |sec| - end
  {
    var m := Search(rx.verb, sec[end..]).value;
    var start := end + m.end;
    if k > 0 {
      var h := Search(rx.header, sec[start..]).value;
      var rest := VerbSpansFrom(rx, sec, start + h.start);
      assert VerbSpansFrom(rx, sec, end) == [Span(end, start, start + h.start)] + rest;
      assert VerbSpansFrom(rx, sec, end)[k] == rest[k - 1];
      VerbSpanStart(rx, sec, start + h.start, k - 1);
    }
  }

  /** Each verb section stops where the header pattern's match starts,
      searched from the section's start, or at the end of the text when
      that search fails. */
  lemma {:induction false} VerbSpanStop(rx: Regexps, sec: string, end: nat, k: nat)
    requires end <= |sec| && k < |VerbSpansFrom(rx, sec, end)|
    ensures var sp := VerbSpansFrom(rx, sec, end)[k];
            sp.start <= |sec| &&
            (Search(rx.header, sec[sp.start..]).None? ==> sp.stop == |sec|) &&
            (Search(rx.header, sec[sp.start..]).Some? ==> sp.stop == sp.start + Search(rx.header, sec[sp.start..]).value.start)
    decreases |sec| - end
  {
    var m := Search(rx.verb, sec[end..]).value;
    var start := end + m.end;
    if Search(rx.header, sec[start..]).Some? {
      var h := Search(rx.header, sec[start..]).value;
      var rest := VerbSpansFrom(rx, sec, start + h.start);
      assert VerbSpansFrom(rx, sec, end) == [Span(end, start, start + h.start)] + rest;
      if k > 0 {
        assert VerbSpansFrom(rx, sec, end)[k] == rest[k - 1];
        VerbSpanStop(rx, sec, start + h.start, k - 1);
      }
    }
  }

  /** The cut stops only when no verb header remains:
      there is no verb section at all exactly when the verb pattern finds
      nothing, and after the last one the text is used up or the verb
      pattern finds nothing more. */
  lemma {:induction false} VerbSpansComplete(rx: Regexps, sec: string, end: nat)
    requires end <= |sec|
    ensures var r := VerbSpansFrom(rx, sec, end);
            r == [] <==> Search(rx.verb, sec[end..]).None?
    ensures var r := VerbSpansFrom(rx, sec, end);
            r != [] ==> r[|r| - 1].stop <= |sec| &&
                        (r[|r| - 1].stop == |sec| || Search(rx.verb, sec[r[|r| - 1].stop..]).None?)
    decreases |sec| - end
  {
    if Search(rx.verb, sec[end..]).Some? {
      var m := Search(rx.verb, sec[end..]).value;
      var start := end + m.end;
      if Search(rx.header, sec[start..]).Some? {
        var h := Search(rx.header, sec[start..]).value;
        var rest := VerbSpansFrom(rx, sec, start + h.start);
        VerbSpansComplete(rx, sec, start + h.start);
        assert VerbSpansFrom(rx, sec, end) == [Span(end, start, start + h.start)] + rest;
      }
    }
  }

  /** `verb( |-)form` occurs in `s`. */
  predicate Indicative(s: string)
  {
    Contains(s, "verb form") || Contains(s, "verb-form")
  }

  /** The `{{...}}` capture of each match. */
  function Captures(s: string, ms: seq<Match>): (r: seq<string>)
    requires forall k :: 0 <= k < |ms| ==> ms[k].group <= ms[k].end <= |s|
    ensures |r| == |ms|
    ensures forall k :: 0 <= k < |ms| ==> r[k] == s[ms[k].group..ms[k].end]
  {
    seq(|ms|, k requires 0 <= k < |ms| => s[ms[k].group..ms[k].end])
  }

  /** The templates of one verb section: the whole first match of the
      template pattern, then, when it is indicative, the capture of every
      later match; `None` when there is no match at all. */
  function TemplateList(scan: Scanner, vsec: string): (r: Option<seq<string>>)
    ensures r.None? <==> ScanAll(scan, vsec) == []
  {
    var ms := ScanAll(scan, vsec);
    if ms == [] then None
    else
      var head := vsec[ms[0].start..ms[0].end];
      Some([head] + (if Indicative(head) then Captures(vsec, ms[1..]) else []))
  }

  /** The first template is the whole first match; an indicative first
      template is followed by the capture of every later match, any other
      stands alone. */
  lemma TemplateListShape(scan: Scanner, vsec: string)
    requires TemplateList(scan, vsec).Some?
    ensures var ms := ScanAll(scan, vsec);
            var l := TemplateList(scan, vsec).value;
            |ms| >= 1 && |l| >= 1 && l[0] == vsec[ms[0].start..ms[0].end] &&
            (Indicative(l[0]) ==> |l| == |ms| &&
                                  forall i :: 1 <= i < |l| ==> l[i] == vsec[ms[i].group..ms[i].end]) &&
            (!Indicative(l[0]) ==> |l| == 1)
  {
    var ms := ScanAll(scan, vsec);
    var head := vsec[ms[0].start..ms[0].end];
    var l := TemplateList(scan, vsec).value;
    assert l == [head] + (if Indicative(head) then Captures(vsec, ms[1..]) else []);
    if Indicative(head) {
      assert forall i :: 1 <= i < |l| ==> l[i] == Captures(vsec, ms[1..])[i - 1];
    }
  }

  /** `{{`, then text without `{`, then `}}`: the capture of a match of
      the template pattern. */
  predicate BraceText(t: string)
  {
    |t| >= 4 && t[..2] == "{{" && t[|t| - 2..] == "}}" && forall q :: 2 <= q < |t| ==> t[q] != '{'
  }

  /** The whole text of a match of the template pattern: its capture,
      optionally after `# `. */
  predicate MarkedBraceText(t: string)
  {
    BraceText(t) || (|t| >= 2 && t[..2] == "# " && BraceText(t[2..]))
  }

  /** A template list as the template pattern makes it: the first
      template a whole match, every later one a capture. */
  predicate BraceShaped(l: seq<string>)
  {
    forall i :: 0 <= i < |l| ==> MarkedBraceText(l[i]) && (i >= 1 ==> BraceText(l[i]))
  }

  /** A span opening with `{{`, closing with `}}` and holding no other
      `{` is a brace text; so is the span from `p` on, or it is one after
      `# `. */
  lemma BraceSpan(s: string, p: nat, g: nat, e: nat)
    requires g + 4 <= e <= |s|
    requires g == p || (g == p + 2 && OccursAt(s, "# ", p))
    requires OccursAt(s, "{{", g) && OccursAt(s, "}}", e - 2) && NoneOf(s, '{', g + 2, e)
    ensures BraceText(s[g..e]) && MarkedBraceText(s[p..e])
  {
    var c := s[g..e];
    SliceOfSlice(s, g, e, 0, 2);
    SliceOfSlice(s, g, e, |c| - 2, |c|);
    assert forall q :: 2 <= q < |c| ==> c[q] == s[g + q];
    if g != p {
      var t := s[p..e];
      SliceOfSlice(s, p, e, 0, 2);
      SliceOfSlice(s, p, e, 2, |t|);
      assert t[2..] == c;
    }
  }

  /** What a match of the template pattern spans. */
  lemma BraceMatchText(s: string, m: Match)
    requires m.start <= |s| && MatchAt(BraceTemplate, s, m.start) == Some(m)
    ensures BraceText(s[m.group..m.end]) && MarkedBraceText(s[m.start..m.end])
  {
    var r := BraceTemplateAt(s, m.start);
    assert r == Some(m);
    BraceSpan(s, m.start, m.group, m.end);
  }

  /** With the patterns `NewWorker` compiles, the first template of a
      verb section is the leftmost template match, `{{...}}` optionally
      after `# `, and every later template is a `{{...}}` capture. */
  lemma BraceTemplatesShape(vsec: string, l: seq<string>)
    requires TemplateList(Rubex.template, vsec) == Some(l)
    ensures FirstMatchFrom(BraceTemplate, vsec, 0).Some?
    ensures var m := FirstMatchFrom(BraceTemplate, vsec, 0).value;
            |l| >= 1 && l[0] == vsec[m.start..m.end]
    ensures BraceShaped(l)
  {
    ScanAllScans(BraceTemplate, vsec);
    TemplateListShape(Rubex.template, vsec);
    var ms := FindAll(BraceTemplate, vsec, 0);
    assert ms[0] == FirstMatchFrom(BraceTemplate, vsec, 0).value;
    forall i | 0 <= i < |l|
      ensures MarkedBraceText(l[i]) && (i >= 1 ==> BraceText(l[i]))
    {
      BraceMatchText(vsec, ms[i]);
    }
  }

  /** The template list of each verb section. */
  function Cuts(scan: Scanner, vsecs: seq<string>): (r: seq<Option<seq<string>>>)
    ensures |r| == |vsecs| && forall k :: 0 <= k < |vsecs| ==> r[k] == TemplateList(scan, vsecs[k])
  {
    seq(|vsecs|, k requires 0 <= k < |vsecs| => TemplateList(scan, vsecs[k]))
  }

  /** What `getTemplates` returns for the template lists of its verb
      sections: a section without a template ends the scan and leaves its
      list and every later one empty. */
  function Lists(tls: seq<Option<seq<string>>>): (r: seq<seq<string>>)
    ensures |r| == |tls|
  {
    if tls == [] then []
    else match tls[0]
      case None => seq(|tls|, _ => [])
      case Some(list) => [list] + Lists(tls[1..])
  }

  /** The lists when the first `vt` sections have one and the next
      section, if any, has none: those `vt` lists, then empty lists. */
  lemma {:induction false} ListsCut(tls: seq<Option<seq<string>>>, vt: nat)
    requires vt <= |tls|
    requires forall j :: 0 <= j < vt ==> tls[j].Some?
    requires vt < |tls| ==> tls[vt].None?
    ensures forall j :: 0 <= j < vt ==> Lists(tls)[j] == tls[j].value
    ensures forall j :: vt <= j < |tls| ==> Lists(tls)[j] == []
  {
    if vt > 0 {
      var rest := Lists(tls[1..]);
      ListsCut(tls[1..], vt - 1);
      assert Lists(tls) == [tls[0].value] + rest;
      assert forall j :: 1 <= j < |tls| ==> Lists(tls)[j] == rest[j - 1] && tls[j] == tls[1..][j - 1];
    }
  }

  /** Lists kept by `getTemplates` keep the shape of the template lists
      they come from. */
  lemma {:induction false} ListsBraceShaped(tls: seq<Option<seq<string>>>)
    requires forall k :: 0 <= k < |tls| && tls[k].Some? ==> BraceShaped(tls[k].value)
    ensures forall j :: 0 <= j < |tls| ==> BraceShaped(Lists(tls)[j])
  {
    if tls != [] && tls[0].Some? {
      var rest := Lists(tls[1..]);
      ListsBraceShaped(tls[1..]);
      assert Lists(tls) == [tls[0].value] + rest;
      assert forall j :: 1 <= j < |tls| ==> Lists(tls)[j] == rest[j - 1];
    }
  }

  /** The calls that store the templates of one verb: each template is
      inserted, and handed to the conjugator only when the insert did not
      fail. */
  function TemplatesFrom(respond: Responder, language: string, templates: seq<string>,
                         verbId: int, j: nat, log: seq<Call>): seq<Call>
    requires j <= |templates|
    decreases |templates| - j
  {
    if j == |templates| then log
    else
      var insert := InsertTemplate(templates[j], verbId);
      var reply := respond(log, insert);
      var next := if reply.err.None? then log + [insert, Conjugate(language, templates[j])] else log + [insert];
      TemplatesFrom(respond, language, templates, verbId, j + 1, next)
  }

  /** A call storing one verb's templates: a template insert for that
      verb, or a hand-over to that language's conjugator. */
  predicate TemplateCall(c: Call, language: string, verbId: int)
  {
    (c.InsertTemplate? && c.verbId == verbId) || (c.Conjugate? && c.language == language)
  }

  /** Storing one verb's templates only appends to the log, and every call
      it makes is a template insert for that verb or a hand-over to that
      language's conjugator. */
  lemma {:induction false} TemplatesAppended(respond: Responder, language: string, templates: seq<string>,
                                             verbId: int, j: nat, log: seq<Call>, r: seq<Call>)
    requires j <= |templates| && r == TemplatesFrom(respond, language, templates, verbId, j, log)
    ensures |log| <= |r| && r[..|log|] == log
    ensures forall p :: |log| <= p < |r| ==> TemplateCall(r[p], language, verbId)
    decreases |templates| - j
  {
    if j < |templates| {
      var insert := InsertTemplate(templates[j], verbId);
      var next := if respond(log, insert).err.None? then log + [insert, Conjugate(language, templates[j])]
                  else log + [insert];
      TemplatesAppended(respond, language, templates, verbId, j + 1, next, r);
      assert r[..|next|] == next;
      assert r[..|log|] == next[..|log|];
    }
  }

  /** Every template is inserted, once and in order. */
  lemma {:induction false} TemplatesStored(respond: Responder, language: string, templates: seq<string>,
                                           verbId: int, j: nat, log: seq<Call>, r: seq<Call>)
    requires j <= |templates| && r == TemplatesFrom(respond, language, templates, verbId, j, log)
    ensures |log| <= |r| && TemplatesOf(r[|log|..]) == templates[j..]
    decreases |templates| - j
  {
    TemplatesAppended(respond, language, templates, verbId, j, log, r);
    if j == |templates| {
      assert r[|log|..] == [];
    } else {
      var insert := InsertTemplate(templates[j], verbId);
      var added := if respond(log, insert).err.None? then [insert, Conjugate(language, templates[j])] else [insert];
      var next := log + added;
      TemplatesStored(respond, language, templates, verbId, j + 1, next, r);
      TemplatesAppended(respond, language, templates, verbId, j + 1, next, r);
      assert r[|log|..] == added + r[|next|..];
      PickedAppend(added, r[|next|..], TemplateOf);
      assert TemplatesOf(added) == [templates[j]];
      assert templates[j..] == [templates[j]] + templates[j + 1..];
    }
  }

  /** A template is handed to the conjugator, right after its insert,
      exactly when the insert did not fail; every hand-over follows the
      insert of the same template. */
  lemma {:induction false} ConjugatedIffStored(respond: Responder, language: string, templates: seq<string>,
                                               verbId: int, j: nat, log: seq<Call>, r: seq<Call>)
    requires j <= |templates| && r == TemplatesFrom(respond, language, templates, verbId, j, log)
    ensures forall p :: |log| <= p < |r| && r[p].InsertTemplate? && respond(r[..p], r[p]).err.None? ==>
              p + 1 < |r| && r[p + 1] == Conjugate(language, r[p].template)
    ensures forall p :: |log| <= p && p + 1 < |r| && r[p].InsertTemplate? && r[p + 1].Conjugate? ==>
              respond(r[..p], r[p]).err.None?
    ensures forall p :: |log| <= p < |r| && r[p].Conjugate? ==> |log| < p
    ensures forall p :: |log| < p < |r| && r[p].Conjugate? ==> r[p - 1] == InsertTemplate(r[p].template, verbId)
    decreases |templates| - j
  {
    if j < |templates| {
      var insert := InsertTemplate(templates[j], verbId);
      var ok := respond(log, insert).err.None?;
      var next := if ok then log + [insert, Conjugate(language, templates[j])] else log + [insert];
      ConjugatedIffStored(respond, language, templates, verbId, j + 1, next, r);
      TemplatesAppended(respond, language, templates, verbId, j + 1, next, r);
      assert r[..|log|] == log && r[|log|] == insert;
      if ok {
        assert r[|log| + 1] == Conjugate(language, templates[j]);
      } else if |log| + 1 < |r| {
        assert !r[|log| + 1].Conjugate?;
      }
    }
  }

  /** The calls that store the verbs of one language section: one verb per
      template list; a failed verb insert abandons the remaining lists. */
  function ListsCalls(respond: Responder, language: string, lists: seq<seq<string>>,
                      wordId: int, languageId: int, k: nat, log: seq<Call>): seq<Call>
    requires k <= |lists|
    decreases |lists| - k
  {
    if k == |lists| then log
    else
      var insert := InsertVerb(wordId, languageId);
      var reply := respond(log, insert);
      if reply.err.Some? then log + [insert]
      else ListsCalls(respond, language, lists, wordId, languageId, k + 1,
                      TemplatesFrom(respond, language, lists[k], reply.id, 0, log + [insert]))
  }

  /** The templates of all lists, in order. */
  function Concat(lists: seq<seq<string>>): seq<string>
  {
    if lists == [] then [] else lists[0] + Concat(lists[1..])
  }

  function IsInsertVerb(c: Call): bool
  {
    c.InsertVerb?
  }

  /** A call storing the verbs of one language section: a verb insert for
      that word and language, a template insert, or a hand-over to that
      language's conjugator. */
  predicate VerbCall(c: Call, language: string, wordId: int, languageId: int)
  {
    c == InsertVerb(wordId, languageId) || c.InsertTemplate? || (c.Conjugate? && c.language == language)
  }

  /** The calls after `from` end with a verb insert that failed. */
  predicate EndsInFailedVerb(respond: Responder, r: seq<Call>, from: nat)
  {
    from < |r| && r[|r| - 1].InsertVerb? && respond(r[..|r| - 1], r[|r| - 1]).err.Some?
  }

  /** Storing the verbs only appends to the log, with calls of those kinds. */
  lemma {:induction false} ListsAppended(respond: Responder, language: string, lists: seq<seq<string>>,
                                         wordId: int, languageId: int, k: nat, log: seq<Call>, r: seq<Call>)
    requires k <= |lists| && r == ListsCalls(respond, language, lists, wordId, languageId, k, log)
    ensures |log| <= |r| && r[..|log|] == log
    ensures forall p :: |log| <= p < |r| ==> VerbCall(r[p], language, wordId, languageId)
    decreases |lists| - k
  {
    if k < |lists| {
      var insert := InsertVerb(wordId, languageId);
      var reply := respond(log, insert);
      if reply.err.None? {
        var mid := TemplatesFrom(respond, language, lists[k], reply.id, 0, log + [insert]);
        TemplatesAppended(respond, language, lists[k], reply.id, 0, log + [insert], mid);
        ListsAppended(respond, language, lists, wordId, languageId, k + 1, mid, r);
        assert r[..|mid|] == mid;
        assert r[..|log|] == mid[..|log|];
        forall p | |log| <= p < |r|
          ensures VerbCall(r[p], language, wordId, languageId)
        {
          if p < |mid| {
            assert r[p] == mid[p];
            if p > |log| {
              assert TemplateCall(mid[p], language, reply.id);
            }
          }
        }
      }
    }
  }

  /** A verb insert that fails is the last call: the remaining template
      lists of the section are abandoned. */
  lemma {:induction false} VerbFailureLast(respond: Responder, language: string, lists: seq<seq<string>>,
                                           wordId: int, languageId: int, k: nat, log: seq<Call>, r: seq<Call>)
    requires k <= |lists| && r == ListsCalls(respond, language, lists, wordId, languageId, k, log)
    ensures forall p :: |log| <= p < |r| && r[p].InsertVerb? && respond(r[..p], r[p]).err.Some? ==> p == |r| - 1
    decreases |lists| - k
  {
    if k < |lists| {
      var insert := InsertVerb(wordId, languageId);
      var reply := respond(log, insert);
      if reply.err.None? {
        var mid := TemplatesFrom(respond, language, lists[k], reply.id, 0, log + [insert]);
        TemplatesAppended(respond, language, lists[k], reply.id, 0, log + [insert], mid);
        ListsAppended(respond, language, lists, wordId, languageId, k + 1, mid, r);
        VerbFailureLast(respond, language, lists, wordId, languageId, k + 1, mid, r);
        assert r[..|mid|] == mid;
        forall p | |log| <= p < |mid| && r[p].InsertVerb?
          ensures respond(r[..p], r[p]).err.None?
        {
          assert r[p] == mid[p];
          if p > |log| {
            assert false;
          }
          assert p == |log| && r[..p] == log;
        }
      }
    }
  }

  /** One successful verb insert followed by its templates, in front of
      the calls for the later lists. */
  lemma {:induction false} ListsStep(respond: Responder, language: string, lists: seq<seq<string>>,
                  wordId: int, languageId: int, k: nat, log: seq<Call>, mid: seq<Call>, r: seq<Call>)
    requires k < |lists| && respond(log, InsertVerb(wordId, languageId)).err.None?
    requires mid == TemplatesFrom(respond, language, lists[k], respond(log, InsertVerb(wordId, languageId)).id,
                                  0, log + [InsertVerb(wordId, languageId)])
    requires r == ListsCalls(respond, language, lists, wordId, languageId, k + 1, mid)
    ensures |log| < |mid| <= |r|
    ensures CountOf(r[|log|..], IsInsertVerb) == 1 + CountOf(r[|mid|..], IsInsertVerb)
    ensures TemplatesOf(r[|log|..]) == lists[k] + TemplatesOf(r[|mid|..])
  {
    var insert := InsertVerb(wordId, languageId);
    var id := respond(log, insert).id;
    TemplatesAppended(respond, language, lists[k], id, 0, log + [insert], mid);
    TemplatesStored(respond, language, lists[k], id, 0, log + [insert], mid);
    ListsAppended(respond, language, lists, wordId, languageId, k + 1, mid, r);
    var stored := mid[|log| + 1..];
    var rest := r[|mid|..];
    assert r[..|mid|] == mid;
    assert r[|log|..] == [insert] + stored + rest;
    assert lists[k][0..] == lists[k];
    forall p | 0 <= p < |stored|
      ensures !IsInsertVerb(stored[p])
    {
      assert TemplateCall(mid[|log| + 1 + p], language, id);
    }
    CountOfNone(stored, IsInsertVerb);
    CountOfAppend([insert] + stored, rest, IsInsertVerb);
    CountOfAppend([insert], stored, IsInsertVerb);
    PickedAppend([insert] + stored, rest, TemplateOf);
    PickedAppend([insert], stored, TemplateOf);
  }

  /** Whether the calls end in a failed verb insert is decided by the calls
      for the later lists, when there are any. */
  lemma {:induction false} ListsStepEnds(respond: Responder, language: string, lists: seq<seq<string>>,
                      wordId: int, languageId: int, k: nat, log: seq<Call>, mid: seq<Call>, r: seq<Call>)
    requires k < |lists| && respond(log, InsertVerb(wordId, languageId)).err.None?
    requires mid == TemplatesFrom(respond, language, lists[k], respond(log, InsertVerb(wordId, languageId)).id,
                                  0, log + [InsertVerb(wordId, languageId)])
    requires r == ListsCalls(respond, language, lists, wordId, languageId, k + 1, mid)
    ensures |r| == |mid| <==> k + 1 == |lists|
    ensures EndsInFailedVerb(respond, r, |log|) == EndsInFailedVerb(respond, r, |mid|)
  {
    var insert := InsertVerb(wordId, languageId);
    var id := respond(log, insert).id;
    TemplatesAppended(respond, language, lists[k], id, 0, log + [insert], mid);
    ListsAppended(respond, language, lists, wordId, languageId, k + 1, mid, r);
    if k + 1 < |lists| {
      var reply := respond(mid, insert);
      if reply.err.None? {
        var mid2 := TemplatesFrom(respond, language, lists[k + 1], reply.id, 0, mid + [insert]);
        TemplatesAppended(respond, language, lists[k + 1], reply.id, 0, mid + [insert], mid2);
        ListsAppended(respond, language, lists, wordId, languageId, k + 2, mid2, r);
        assert r[..|mid| + 1] == mid2[..|mid| + 1] == mid + [insert];
      }
      assert r[|mid|] == insert;
    } else if |r| - 1 == |log| {
      assert r[..|r| - 1] == log;
    } else {
      assert TemplateCall(mid[|r| - 1], language, id);
    }
  }

  /** One verb insert per template list, unless a verb insert fails, which
      abandons the lists after it. */
  lemma {:induction false} ListsCounted(respond: Responder, language: string, lists: seq<seq<string>>,
                                        wordId: int, languageId: int, k: nat, log: seq<Call>, r: seq<Call>)
    requires k <= |lists| && r == ListsCalls(respond, language, lists, wordId, languageId, k, log)
    ensures |log| <= |r|
    ensures CountOf(r[|log|..], IsInsertVerb) <= |lists| - k
    ensures !EndsInFailedVerb(respond, r, |log|) ==> CountOf(r[|log|..], IsInsertVerb) == |lists| - k
    ensures EndsInFailedVerb(respond, r, |log|) ==> 1 <= CountOf(r[|log|..], IsInsertVerb)
    decreases |lists| - k
  {
    ListsAppended(respond, language, lists, wordId, languageId, k, log, r);
    if k == |lists| {
      assert r[|log|..] == [];
    } else {
      var insert := InsertVerb(wordId, languageId);
      var reply := respond(log, insert);
      if reply.err.Some? {
        assert r[|log|..] == [insert];
        assert r[..|r| - 1] == log;
      } else {
        var mid := TemplatesFrom(respond, language, lists[k], reply.id, 0, log + [insert]);
        ListsStep(respond, language, lists, wordId, languageId, k, log, mid, r);
        ListsStepEnds(respond, language, lists, wordId, languageId, k, log, mid, r);
        ListsCounted(respond, language, lists, wordId, languageId, k + 1, mid, r);
      }
    }
  }

  /** Each verb insert that succeeds stores that verb's whole list of
      templates, in order: every template of every list when no verb
      insert fails, and of the lists before the failing one otherwise. */
  lemma {:induction false} ListsStored(respond: Responder, language: string, lists: seq<seq<string>>,
                                       wordId: int, languageId: int, k: nat, log: seq<Call>, r: seq<Call>)
    requires k <= |lists| && r == ListsCalls(respond, language, lists, wordId, languageId, k, log)
    ensures |log| <= |r| && CountOf(r[|log|..], IsInsertVerb) <= |lists| - k
    ensures !EndsInFailedVerb(respond, r, |log|) ==> TemplatesOf(r[|log|..]) == Concat(lists[k..])
    ensures EndsInFailedVerb(respond, r, |log|) ==>
              1 <= CountOf(r[|log|..], IsInsertVerb) &&
              TemplatesOf(r[|log|..]) == Concat(lists[k..k + CountOf(r[|log|..], IsInsertVerb) - 1])
    decreases |lists| - k
  {
    ListsCounted(respond, language, lists, wordId, languageId, k, log, r);
    if k == |lists| {
      assert r[|log|..] == [];
    } else {
      var insert := InsertVerb(wordId, languageId);
      var reply := respond(log, insert);
      if reply.err.Some? {
        assert r[|log|..] == [insert];
        assert TemplateOf(insert) == None && [insert][1..] == [];
        assert Picked([insert], TemplateOf) == Picked([], TemplateOf) == [];
        assert lists[k..k] == [];
      } else {
        var mid := TemplatesFrom(respond, language, lists[k], reply.id, 0, log + [insert]);
        ListsStep(respond, language, lists, wordId, languageId, k, log, mid, r);
        ListsStepEnds(respond, language, lists, wordId, languageId, k, log, mid, r);
        ListsStored(respond, language, lists, wordId, languageId, k + 1, mid, r);
        var n := CountOf(r[|mid|..], IsInsertVerb);
        if k + 1 == |lists| {
          assert Concat(lists[k + 1..]) == [];
        }
        if EndsInFailedVerb(respond, r, |mid|) {
          assert lists[k..k + n][1..] == lists[k + 1..k + n];
        } else {
          assert lists[k..][1..] == lists[k + 1..];
        }
      }
    }
  }

  /** Section `i` of the page holds a verb header and its language has a
      conjugator. */
  predicate Qualifies(rx: Regexps, registry: set<string>, page: Page, i: nat)
    requires i < |Headers(rx.language, page.text)|
  {
    var hs := Headers(rx.language, page.text);
    Contains(Section(page.text, hs, i), VerbMarker) && ExtractLanguage(page.text, hs[i]) in registry
  }

  /** The languages of the qualifying sections from `i` on, in page order. */
  function Qualifying(rx: Regexps, registry: set<string>, page: Page, i: nat): seq<string>
    requires i <= |Headers(rx.language, page.text)|
    decreases |Headers(rx.language, page.text)| - i
  {
    var hs := Headers(rx.language, page.text);
    if i == |hs| then []
    else if Qualifies(rx, registry, page, i) then [ExtractLanguage(page.text, hs[i])] + Qualifying(rx, registry, page, i + 1)
    else Qualifying(rx, registry, page, i + 1)
  }

  /** A call `process` may make for a page: a language insert or a
      hand-over for a language with a conjugator, the insert of the page's
      title as a word, or a verb or template insert. */
  predicate PageCall(c: Call, registry: set<string>, title: string)
  {
    match c
    case InsertLanguage(language) => language in registry
    case InsertWord(word) => word == title
    case InsertVerb(_, _) => true
    case InsertTemplate(_, _) => true
    case Conjugate(language, _) => language in registry
    case _ => false
  }

  /** The log and the word id after one pass of the loop of `process`. */
  datatype Step = Step(log: seq<Call>, wordId: int)

  /** One pass of the loop of `process`, over section `i`: nothing unless
      the section qualifies; otherwise the language insert, the word insert
      when no word id is known yet (-1), and the calls storing the verbs. */
  function SectionStep(respond: Responder, rx: Regexps, registry: set<string>, page: Page,
                       i: nat, wordId: int, log: seq<Call>): Step
    requires i < |Headers(rx.language, page.text)|
  {
    if !Qualifies(rx, registry, page, i) then Step(log, wordId)
    else
      var hs := Headers(rx.language, page.text);
      var language := ExtractLanguage(page.text, hs[i]);
      var log1 := log + [InsertLanguage(language)];
      var languageId := respond(log, InsertLanguage(language)).id;
      var wid := if wordId == -1 then respond(log1, InsertWord(page.title)).id else wordId;
      var log2 := if wordId == -1 then log1 + [InsertWord(page.title)] else log1;
      var lists := Lists(Cuts(rx.template, VerbSections(rx, Section(page.text, hs, i))));
      Step(ListsCalls(respond, language, lists, wid, languageId, 0, log2), wid)
  }

  /** The calls `process` makes for language sections `i` on, with the
      word id found so far (-1 for none). */
  function ProcessFrom(respond: Responder, rx: Regexps, registry: set<string>, page: Page,
                       i: nat, wordId: int, log: seq<Call>): seq<Call>
    requires i <= |Headers(rx.language, page.text)|
    decreases |Headers(rx.language, page.text)| - i
  {
    if i == |Headers(rx.language, page.text)| then log
    else
      var st := SectionStep(respond, rx, registry, page, i, wordId, log);
      ProcessFrom(respond, rx, registry, page, i + 1, st.wordId, st.log)
  }

  /** The language id a qualifying section gets. */
  function LanguageIdOf(respond: Responder, rx: Regexps, page: Page, i: nat, log: seq<Call>): int
    requires i < |Headers(rx.language, page.text)|
  {
    var hs := Headers(rx.language, page.text);
    respond(log, InsertLanguage(ExtractLanguage(page.text, hs[i]))).id
  }

  /** A qualifying pass: the language insert, then the title's insert when
      no word id is known yet, keeping the id it gets, then only calls
      storing verbs of that word and language. */
  lemma {:induction false} StepShape(respond: Responder, rx: Regexps, registry: set<string>, page: Page,
                                     i: nat, wordId: int, log: seq<Call>)
    requires i < |Headers(rx.language, page.text)| && Qualifies(rx, registry, page, i)
    ensures var st := SectionStep(respond, rx, registry, page, i, wordId, log);
            var language := ExtractLanguage(page.text, Headers(rx.language, page.text)[i]);
            var n := if wordId == -1 then 2 else 1;
            |log| + n <= |st.log| && st.log[..|log|] == log &&
            st.log[|log|] == InsertLanguage(language) &&
            (wordId == -1 ==> st.log[|log| + 1] == InsertWord(page.title) &&
                              st.wordId == respond(st.log[..|log| + 1], InsertWord(page.title)).id) &&
            (wordId != -1 ==> st.wordId == wordId) &&
            forall p :: |log| + n <= p < |st.log| ==>
              VerbCall(st.log[p], language, st.wordId, LanguageIdOf(respond, rx, page, i, log))
  {
    var hs := Headers(rx.language, page.text);
    var language := ExtractLanguage(page.text, hs[i]);
    var log1 := log + [InsertLanguage(language)];
    var languageId := respond(log, InsertLanguage(language)).id;
    var wid := if wordId == -1 then respond(log1, InsertWord(page.title)).id else wordId;
    var log2 := if wordId == -1 then log1 + [InsertWord(page.title)] else log1;
    var lists := Lists(Cuts(rx.template, VerbSections(rx, Section(page.text, hs, i))));
    var lc := ListsCalls(respond, language, lists, wid, languageId, 0, log2);
    assert SectionStep(respond, rx, registry, page, i, wordId, log) == Step(lc, wid);
    ListsAppended(respond, language, lists, wid, languageId, 0, log2, lc);
    assert lc[..|log2|] == log2;
    assert lc[..|log|] == log;
    assert lc[|log|] == log2[|log|];
    if wordId == -1 {
      assert lc[..|log| + 1] == log1;
      assert lc[|log| + 1] == log2[|log| + 1];
    }
  }

  /** The calls of a qualifying pass are calls `process` may make. */
  lemma PageCallsMore(log: seq<Call>, out: seq<Call>, n: nat, registry: set<string>, title: string,
                      language: string, wordId: int, languageId: int)
    requires 1 <= n <= 2 && |log| + n <= |out| && language in registry
    requires out[|log|] == InsertLanguage(language) && (n == 2 ==> out[|log| + 1] == InsertWord(title))
    requires forall p :: |log| + n <= p < |out| ==> VerbCall(out[p], language, wordId, languageId)
    ensures forall p :: |log| <= p < |out| ==> PageCall(out[p], registry, title)
  {
    forall p | |log| <= p < |out|
      ensures PageCall(out[p], registry, title)
    {
      if p >= |log| + n {
        assert VerbCall(out[p], language, wordId, languageId);
      }
    }
  }

  /** A pass only appends to the log, with calls `process` may make, and
      changes nothing for a section that does not qualify. */
  lemma {:induction false} StepAppended(respond: Responder, rx: Regexps, registry: set<string>, page: Page,
                                        i: nat, wordId: int, log: seq<Call>)
    requires i < |Headers(rx.language, page.text)|
    ensures var st := SectionStep(respond, rx, registry, page, i, wordId, log);
            |log| <= |st.log| && st.log[..|log|] == log &&
            forall p :: |log| <= p < |st.log| ==> PageCall(st.log[p], registry, page.title)
    ensures !Qualifies(rx, registry, page, i) ==>
              SectionStep(respond, rx, registry, page, i, wordId, log) == Step(log, wordId)
  {
    if Qualifies(rx, registry, page, i) {
      var st := SectionStep(respond, rx, registry, page, i, wordId, log);
      StepShape(respond, rx, registry, page, i, wordId, log);
      PageCallsMore(log, st.log, if wordId == -1 then 2 else 1, registry, page.title,
                    ExtractLanguage(page.text, Headers(rx.language, page.text)[i]),
                    st.wordId, LanguageIdOf(respond, rx, page, i, log));
    }
  }

  /** The title is inserted as a word by a pass only right after the
      language of a qualifying section while no word id is known, and the
      pass then keeps the id it gets; with a word id known, no pass
      inserts it. */
  lemma {:induction false} StepWord(respond: Responder, rx: Regexps, registry: set<string>, page: Page,
                                    i: nat, wordId: int, log: seq<Call>)
    requires i < |Headers(rx.language, page.text)|
    ensures var st := SectionStep(respond, rx, registry, page, i, wordId, log);
            |log| <= |st.log| &&
            forall p :: |log| <= p < |st.log| && st.log[p].InsertWord? ==>
              wordId == -1 && p == |log| + 1 && st.wordId == respond(st.log[..p], st.log[p]).id
    ensures var st := SectionStep(respond, rx, registry, page, i, wordId, log);
            wordId != -1 ==> st.wordId == wordId
    ensures var st := SectionStep(respond, rx, registry, page, i, wordId, log);
            wordId == -1 && Qualifies(rx, registry, page, i) ==> |log| + 1 < |st.log| && st.log[|log| + 1].InsertWord?
  {
    var st := SectionStep(respond, rx, registry, page, i, wordId, log);
    if Qualifies(rx, registry, page, i) {
      StepShape(respond, rx, registry, page, i, wordId, log);
      var language := ExtractLanguage(page.text, Headers(rx.language, page.text)[i]);
      forall p | |log| <= p < |st.log| && st.log[p].InsertWord?
        ensures wordId == -1 && p == |log| + 1
      {
        if p >= |log| + (if wordId == -1 then 2 else 1) {
          assert false;
        }
      }
    } else {
      StepAppended(respond, rx, registry, page, i, wordId, log);
    }
  }

  /** A log extended by one language insert, maybe a word insert, and
      calls storing verbs holds that one language more. */
  lemma OneLanguageMore(log: seq<Call>, out: seq<Call>, n: nat, language: string, wordId: int, languageId: int)
    requires 1 <= n <= 2 && |log| + n <= |out|
    requires out[|log|] == InsertLanguage(language) && (n == 2 ==> out[|log| + 1].InsertWord?)
    requires forall p :: |log| + n <= p < |out| ==> VerbCall(out[p], language, wordId, languageId)
    ensures LanguagesOf(out[|log|..]) == [language]
  {
    var head := out[|log|..|log| + n];
    var verbs := out[|log| + n..];
    assert out[|log|..] == head + verbs;
    forall p | 0 <= p < |verbs|
      ensures !verbs[p].InsertLanguage?
    {
      assert VerbCall(out[|log| + n + p], language, wordId, languageId);
    }
    PickedNone(verbs, LanguageOf);
    PickedAppend(head, verbs, LanguageOf);
    if n == 1 {
      assert head == [InsertLanguage(language)];
    } else {
      assert head == [InsertLanguage(language), out[|log| + 1]];
    }
  }

  /** A pass inserts the section's language once when it qualifies, and
      no language otherwise. */
  lemma {:induction false} StepLanguages(respond: Responder, rx: Regexps, registry: set<string>, page: Page,
                                         i: nat, wordId: int, log: seq<Call>)
    requires i < |Headers(rx.language, page.text)|
    ensures var st := SectionStep(respond, rx, registry, page, i, wordId, log);
            |log| <= |st.log| &&
            LanguagesOf(st.log[|log|..]) ==
              (if Qualifies(rx, registry, page, i)
               then [ExtractLanguage(page.text, Headers(rx.language, page.text)[i])] else [])
  {
    var st := SectionStep(respond, rx, registry, page, i, wordId, log);
    if Qualifies(rx, registry, page, i) {
      StepShape(respond, rx, registry, page, i, wordId, log);
      OneLanguageMore(log, st.log, if wordId == -1 then 2 else 1,
                      ExtractLanguage(page.text, Headers(rx.language, page.text)[i]),
                      st.wordId, LanguageIdOf(respond, rx, page, i, log));
    } else {
      StepAppended(respond, rx, registry, page, i, wordId, log);
      assert st.log[|log|..] == [];
    }
  }

  /** Processing a page only appends to the log, with calls `process` may
      make. */
  lemma {:induction false} ProcessAppended(respond: Responder, rx: Regexps, registry: set<string>, page: Page,
                                           i: nat, wordId: int, log: seq<Call>, r: seq<Call>)
    requires i <= |Headers(rx.language, page.text)|
    requires r == ProcessFrom(respond, rx, registry, page, i, wordId, log)
    ensures |log| <= |r| && r[..|log|] == log
    ensures forall p :: |log| <= p < |r| ==> PageCall(r[p], registry, page.title)
    decreases |Headers(rx.language, page.text)| - i
  {
    if i < |Headers(rx.language, page.text)| {
      var st := SectionStep(respond, rx, registry, page, i, wordId, log);
      StepAppended(respond, rx, registry, page, i, wordId, log);
      ProcessAppended(respond, rx, registry, page, i + 1, st.wordId, st.log, r);
      assert r[..|st.log|] == st.log;
      assert r[..|log|] == st.log[..|log|];
      forall p | |log| <= p < |st.log|
        ensures PageCall(r[p], registry, page.title)
      {
        assert r[p] == st.log[p];
      }
    }
  }

  /** A section step only appends to the log. */
  lemma StepPrefix(respond: Responder, rx: Regexps, registry: set<string>, page: Page,
                   i: nat, wordId: int, log: seq<Call>)
    requires i < |Headers(rx.language, page.text)|
    ensures var st := SectionStep(respond, rx, registry, page, i, wordId, log);
            |log| <= |st.log| && st.log[..|log|] == log
  {
    StepAppended(respond, rx, registry, page, i, wordId, log);
  }

  /** Processing only appends to the log. */
  lemma ProcessPrefix(respond: Responder, rx: Regexps, registry: set<string>, page: Page,
                      i: nat, wordId: int, log: seq<Call>, r: seq<Call>)
    requires i <= |Headers(rx.language, page.text)|
    requires r == ProcessFrom(respond, rx, registry, page, i, wordId, log)
    ensures |log| <= |r| && r[..|log|] == log
  {
    ProcessAppended(respond, rx, registry, page, i, wordId, log, r);
  }

  /** Only qualifying sections (holding `===Verb===`, with a language that
      has a conjugator) get a language insert: one each, in page order. A
      section whose language has no conjugator is skipped and the later
      ones are still processed. */
  lemma {:induction false} ProcessLanguages(respond: Responder, rx: Regexps, registry: set<string>, page: Page,
                                            i: nat, wordId: int, log: seq<Call>, r: seq<Call>)
    requires i <= |Headers(rx.language, page.text)|
    requires r == ProcessFrom(respond, rx, registry, page, i, wordId, log)
    ensures |log| <= |r| && LanguagesOf(r[|log|..]) == Qualifying(rx, registry, page, i)
    decreases |Headers(rx.language, page.text)| - i
  {
    ProcessPrefix(respond, rx, registry, page, i, wordId, log, r);
    if i == |Headers(rx.language, page.text)| {
      assert r[|log|..] == [];
    } else {
      var st := SectionStep(respond, rx, registry, page, i, wordId, log);
      StepPrefix(respond, rx, registry, page, i, wordId, log);
      StepLanguages(respond, rx, registry, page, i, wordId, log);
      ProcessPrefix(respond, rx, registry, page, i + 1, st.wordId, st.log, r);
      ProcessLanguages(respond, rx, registry, page, i + 1, st.wordId, st.log, r);
      var mid, rest := st.log[|log|..], r[|st.log|..];
      SplitTail(r, |log|, |st.log|);
      PickedAppend(mid, rest, LanguageOf);
    }
  }

  /** A page with no qualifying section causes no call at all. */
  lemma {:induction false} ProcessQuiet(respond: Responder, rx: Regexps, registry: set<string>, page: Page,
                                        i: nat, wordId: int, log: seq<Call>)
    requires i <= |Headers(rx.language, page.text)|
    requires Qualifying(rx, registry, page, i) == []
    ensures ProcessFrom(respond, rx, registry, page, i, wordId, log) == log
    decreases |Headers(rx.language, page.text)| - i
  {
    if i < |Headers(rx.language, page.text)| {
      StepAppended(respond, rx, registry, page, i, wordId, log);
      ProcessQuiet(respond, rx, registry, page, i + 1, wordId, log);
    }
  }

  /** The title is inserted as a word at most once per page, unless the
      word insert answers with -1, the value that means "no word yet":
      every word insert but the last got -1. With a word id already known,
      none is made. */
  lemma {:induction false} WordOnce(respond: Responder, rx: Regexps, registry: set<string>, page: Page,
                                    i: nat, wordId: int, log: seq<Call>, r: seq<Call>)
    requires i <= |Headers(rx.language, page.text)|
    requires r == ProcessFrom(respond, rx, registry, page, i, wordId, log)
    ensures wordId != -1 ==> forall p :: |log| <= p < |r| ==> !r[p].InsertWord?
    ensures forall p, q :: |log| <= p < q < |r| && r[p].InsertWord? && r[q].InsertWord? ==>
              respond(r[..p], r[p]).id == -1
    decreases |Headers(rx.language, page.text)| - i
  {
    if i < |Headers(rx.language, page.text)| {
      var st := SectionStep(respond, rx, registry, page, i, wordId, log);
      StepAppended(respond, rx, registry, page, i, wordId, log);
      StepWord(respond, rx, registry, page, i, wordId, log);
      ProcessAppended(respond, rx, registry, page, i + 1, st.wordId, st.log, r);
      WordOnce(respond, rx, registry, page, i + 1, st.wordId, st.log, r);
      assert r[..|st.log|] == st.log;
      forall p | |log| <= p < |st.log|
        ensures r[p] == st.log[p] && r[..p] == st.log[..p]
      {
      }
    }
  }

  /** When no word id is known and some section qualifies, the first calls
      are the language insert of the first qualifying section and then the
      title's insert as a word. */
  lemma {:induction false} WordFirst(respond: Responder, rx: Regexps, registry: set<string>, page: Page,
                                     i: nat, log: seq<Call>, r: seq<Call>)
    requires i <= |Headers(rx.language, page.text)|
    requires r == ProcessFrom(respond, rx, registry, page, i, -1, log)
    requires Qualifying(rx, registry, page, i) != []
    ensures |log| + 2 <= |r|
    ensures r[|log|] == InsertLanguage(Qualifying(rx, registry, page, i)[0])
    ensures r[|log| + 1] == InsertWord(page.title)
    decreases |Headers(rx.language, page.text)| - i
  {
    var st := SectionStep(respond, rx, registry, page, i, -1, log);
    StepAppended(respond, rx, registry, page, i, -1, log);
    if Qualifies(rx, registry, page, i) {
      StepShape(respond, rx, registry, page, i, -1, log);
      ProcessAppended(respond, rx, registry, page, i + 1, st.wordId, st.log, r);
      assert r[..|st.log|] == st.log;
      assert r[|log|] == st.log[|log|] && r[|log| + 1] == st.log[|log| + 1];
    } else {
      WordFirst(respond, rx, registry, page, i + 1, log, r);
    }
  }

  class Worker {
    /** The language section being worked on. */
    var languageSection: string
    const store: Store
    /** The languages that have a conjugator. */
    const registry: set<string>
    /** The compiled patterns. */
    const rx: Regexps

    /** `NewWorker`. */
    constructor (store: Store, registry: set<string>)
      ensures this.store == store && this.registry == registry && languageSection == []
      ensures rx == Rubex
    {
      this.store := store;
      this.registry := registry;
      languageSection := [];
      rx := Rubex;
    }

    /** The verb sections of the current language section. */
    method GetVerbSections() returns (sections: seq<string>)
      ensures sections == VerbSections(rx, languageSection)
    {
      var sec := languageSection;
      var start, end := 0, 0;
      sections := [];
      while true
        invariant end <= |sec|
        invariant sections + VerbSectionsFrom(rx, sec, end) == VerbSectionsFrom(rx, sec, 0)
        decreases |sec| - end
      {
        var tmp := Search(rx.verb, sec[end..]);
        if tmp.None? {
          assert sections == sections + [];
          break;
        }
        start := end + tmp.value.end;
        var next := Search(rx.header, sec[start..]);
        if next.None? {
          sections := sections + [sec[start..]];
          break;
        }
        var stop := start + next.value.start;
        assert VerbSectionsFrom(rx, sec, end) == [sec[start..stop]] + VerbSectionsFrom(rx, sec, stop);
        sections := sections + [sec[start..stop]];
        end := stop;
      }
    }

    /** The template list of one verb section: the body of the loop in
        `getTemplates`. */
    method SectionTemplates(verbSection: string) returns (list: Option<seq<string>>)
      ensures list == TemplateList(rx.template, verbSection)
    {
      var rawTemps := ScanAll(rx.template, verbSection);
      if rawTemps == [] {
        return None;
      }
      var base := verbSection[rawTemps[0].start..rawTemps[0].end];
      var l := [base];
      if Indicative(base) {
        for i := 1 to |rawTemps|
          invariant l == [base] + Captures(verbSection, rawTemps[1..i])
        {
          assert rawTemps[1..i + 1] == rawTemps[1..i] + [rawTemps[i]];
          l := l + [verbSection[rawTemps[i].group..rawTemps[i].end]];
        }
        assert rawTemps[1..|rawTemps|] == rawTemps[1..];
      } else {
        assert l == [base] + [];
      }
      list := Some(l);
    }

    /** The template lists of the verb sections of the current language
        section. */
    method GetTemplates() returns (templates: seq<seq<string>>)
      ensures templates == Lists(Cuts(rx.template, VerbSections(rx, languageSection)))
      ensures rx == Rubex ==> forall j :: 0 <= j < |templates| ==> BraceShaped(templates[j])
    {
      var verbSections := GetVerbSections();
      ghost var tls := Cuts(rx.template, verbSections);
      if |verbSections| == 0 {
        return [];
      }
      templates := seq(|verbSections|, _ => []);
      var vt := 0;
      while vt < |verbSections|
        invariant vt <= |verbSections| && |templates| == |verbSections|
        invariant forall j :: 0 <= j < vt ==> tls[j].Some? && templates[j] == tls[j].value
        invariant forall j :: vt <= j < |templates| ==> templates[j] == []
      {
        var list := SectionTemplates(verbSections[vt]);
        assert tls[vt] == list;
        if list.None? {
          break;
        }
        templates := templates[vt := list.value];
        vt := vt + 1;
      }
      ListsCut(tls, vt);
      assert forall j :: 0 <= j < |templates| ==> templates[j] == Lists(tls)[j];
      if rx == Rubex {
        forall k | 0 <= k < |tls| && tls[k].Some?
          ensures BraceShaped(tls[k].value)
        {
          BraceTemplatesShape(verbSections[k], tls[k].value);
        }
        ListsBraceShaped(tls);
      }
    }

    /** Stores the templates of one verb. */
    method StoreTemplates(language: string, templates: seq<string>, verbId: int)
      modifies store
      ensures store.log == TemplatesFrom(store.respond, language, templates, verbId, 0, old(store.log))
    {
      for j := 0 to |templates|
        invariant TemplatesFrom(store.respond, language, templates, verbId, j, store.log) ==
                  TemplatesFrom(store.respond, language, templates, verbId, 0, old(store.log))
      {
        ghost var before := store.log;
        var r := store.Send(InsertTemplate(templates[j], verbId));
        if r.err.None? {
          r := store.Send(Conjugate(language, templates[j]));
          assert store.log == before + [InsertTemplate(templates[j], verbId), Conjugate(language, templates[j])];
        }
      }
    }

    /** Stores one verb per template list. */
    method StoreVerbs(language: string, lists: seq<seq<string>>, wordId: int, languageId: int)
      modifies store
      ensures store.log == ListsCalls(store.respond, language, lists, wordId, languageId, 0, old(store.log))
    {
      var k := 0;
      while k < |lists|
        invariant k <= |lists|
        invariant ListsCalls(store.respond, language, lists, wordId, languageId, k, store.log) ==
                  ListsCalls(store.respond, language, lists, wordId, languageId, 0, old(store.log))
      {
        var r := store.Send(InsertVerb(wordId, languageId));
        if r.err.Some? {
          return;
        }
        StoreTemplates(language, lists[k], r.id);
        k := k + 1;
      }
    }

    /** Processes one page. */
    method Process(page: Page)
      modifies this, store
      ensures store.log == ProcessFrom(store.respond, rx, registry, page, 0, -1, old(store.log))
    {
      var text := page.text;
      var hs := Headers(rx.language, text);
      var wordId := -1;
      for i := 0 to |hs|
        invariant ProcessFrom(store.respond, rx, registry, page, i, wordId, store.log) ==
                  ProcessFrom(store.respond, rx, registry, page, 0, -1, old(store.log))
      {
        ghost var st := SectionStep(store.respond, rx, registry, page, i, wordId, store.log);
        languageSection := Section(text, hs, i);
        var language := ExtractLanguage(text, hs[i]);
        if Contains(languageSection, VerbMarker) && language in registry {
          var r := store.Send(InsertLanguage(language));
          var languageId := r.id;
          if wordId == -1 {
            r := store.Send(InsertWord(page.title));
            wordId := r.id;
          }
          var lists := GetTemplates();
          StoreVerbs(language, lists, wordId, languageId);
        }
        assert store.log == st.log && wordId == st.wordId;
      }
    }
  }
}
