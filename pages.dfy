/** A wiki page and its division into language sections. Each section starts
    with a language header such as `==Dutch==` followed by a newline; the
    section text runs from the end of its header to the start of the next
    header, or to the end of the page for the last one. */
module Pages {
  import opened Text
  import opened Patterns

  datatype Page = Page(title: string, text: string)

  /** The header that marks a language section as holding a verb. */
  const VerbMarker := "===Verb==="

  /** Matches inside `text`, in order and not overlapping. */
  predicate WellPlaced(text: string, hs: seq<Match>)
  {
    Ordered(hs) && forall k :: 0 <= k < |hs| ==> hs[k].start < hs[k].end <= |text|
  }

  /** Orderedness of neighbours carries over to any two matches. */
  lemma {:induction false} WellPlacedMonotone(text: string, hs: seq<Match>, j: nat, k: nat)
    requires WellPlaced(text, hs) && j < k < |hs|
    ensures hs[j].end <= hs[k].start
    decreases k - j
  {
    if j + 1 < k {
      WellPlacedMonotone(text, hs, j + 1, k);
    }
  }

  /** Where section `i` stops: the start of the next header, or the end of
      the text after the last one. */
  function SectionEnd(text: string, hs: seq<Match>, i: nat): (r: nat)
    requires WellPlaced(text, hs) && i < |hs|
    ensures hs[i].end <= r <= |text|
    ensures i + 1 < |hs| ==> r == hs[i + 1].start
  {
    if i + 1 < |hs| then hs[i + 1].start else |text|
  }

  function Section(text: string, hs: seq<Match>, i: nat): (r: string)
    requires WellPlaced(text, hs) && i < |hs|
  {
    text[hs[i].end..SectionEnd(text, hs, i)]
  }

  /** Position `p` of the text lies in section `i`. */
  predicate InSection(text: string, hs: seq<Match>, i: nat, p: nat)
    requires WellPlaced(text, hs) && i < |hs|
  {
    hs[i].end <= p < SectionEnd(text, hs, i)
  }

  /** No position belongs to two sections, the text of a header belongs to
      no section, and neither does the text before the first header. */
  lemma SectionsPartition(text: string, hs: seq<Match>, i: nat, j: nat, p: nat)
    requires WellPlaced(text, hs) && i < |hs| && j < |hs|
    requires InSection(text, hs, i, p)
    ensures InSection(text, hs, j, p) ==> i == j
    ensures !(hs[j].start <= p < hs[j].end)
    ensures hs[0].start <= p
  {
    if i < j {
      if i + 1 < j {
        WellPlacedMonotone(text, hs, i + 1, j);
      }
    } else if j < i {
      WellPlacedMonotone(text, hs, j, i);
      if j + 1 < i {
        WellPlacedMonotone(text, hs, j + 1, i);
      }
    }
    if 0 < i {
      WellPlacedMonotone(text, hs, 0, i);
    }
  }

  /** Every position after the first header's start is in a header or in
      exactly the section that follows the last header starting at or
      before it. */
  lemma SectionsCover(text: string, hs: seq<Match>, p: nat)
    requires WellPlaced(text, hs) && |hs| > 0 && hs[0].start <= p < |text|
    ensures exists i :: 0 <= i < |hs| && (hs[i].start <= p < hs[i].end || InSection(text, hs, i, p))
  {
    var i := 0;
    while i + 1 < |hs| && hs[i + 1].start <= p
      invariant 0 <= i < |hs| && hs[i].start <= p
      decreases |hs| - i
    {
      i := i + 1;
    }
    assert hs[i].start <= p < hs[i].end || InSection(text, hs, i, p);
  }

  /** The language named by header `h` (Go `strings.ToLower` of the text
      between the leading `==` and the trailing `==` and newline). */
  function ExtractLanguage(text: string, h: Match): (r: string)
    requires h.start + 2 <= h.end - 3 && h.end <= |text|
  {
    ToLower(text[h.start + 2..h.end - 3])
  }

  /** The language headers a scanner reports, provided each is long
      enough to hold `==`, a name and `==\n` (the language-header pattern
      only reports such; see `LanguageHeadersExact`). */
  function Headers(f: Scanner, text: string): (r: seq<Match>)
    ensures WellPlaced(text, r)
    ensures forall k :: 0 <= k < |r| ==> r[k].start + 5 <= r[k].end
  {
    var ms := ScanAll(f, text);
    if forall k :: 0 <= k < |ms| ==> ms[k].start + 5 <= ms[k].end then ms else []
  }

  /** For the language-header pattern, reading its answer loses nothing. */
  lemma LanguageHeadersExact(text: string)
    ensures Headers(Scans(LanguageHeader), text) == FindAll(LanguageHeader, text, 0)
  {
    ScanAllScans(LanguageHeader, text);
    var ms := FindAll(LanguageHeader, text, 0);
    forall k | 0 <= k < |ms|
      ensures ms[k].start + 5 <= ms[k].end
    {
      assert MatchAt(LanguageHeader, text, ms[k].start) == Some(ms[k]);
    }
  }

  /** A language header is `==`, a non-empty name without `=`, then `==`
      and a newline; the extracted language is that name lower-cased. Every
      match `FindAll(LanguageHeader, text, 0)` reports is such a match. */
  lemma LanguageHeaderShape(text: string, h: Match)
    requires h.start <= |text| && MatchAt(LanguageHeader, text, h.start) == Some(h)
    ensures var name := text[h.start + 2..h.end - 3];
            h.start + 2 < h.end - 3 &&
            text[h.start..h.end] == "==" + name + "==\n" &&
            '=' !in name &&
            ExtractLanguage(text, h) == ToLower(name) &&
            |ExtractLanguage(text, h)| == |name| > 0
  {
    var name := text[h.start + 2..h.end - 3];
    assert text[h.start..h.end] == text[h.start..h.start + 2] + name + text[h.end - 3..h.end];
    assert forall q :: 0 <= q < |name| ==> name[q] == text[h.start + 2 + q];
  }
}
