/** The regular expressions the page segmenter and the template extractors
    compile with rubex (Oniguruma, Ruby syntax), each written out as an
    explicit function that says where a match starting at a given position
    ends. Under the Ruby syntax `^` and `$` always anchor at line boundaries
    and the `(?m)` flag makes `.` match a newline as well. Matching is
    leftmost-first with greedy quantifiers; the scanners at the end of the
    module find the leftmost match and all non-overlapping matches. */
module Patterns {
  import opened Text

  /** `^` holds at `p`. */
  predicate LineStart(s: string, p: nat)
  {
    p == 0 || (p <= |s| && s[p - 1] == '\n')
  }

  /** `$` holds at `e`. */
  predicate LineEnd(s: string, e: nat)
  {
    e == |s| || (e < |s| && s[e] == '\n')
  }

  /** `s[lo..hi]` consists of the character `c` only. */
  predicate AllOf(s: string, c: char, lo: nat, hi: nat)
    requires lo <= hi <= |s|
  {
    forall k :: lo <= k < hi ==> s[k] == c
  }

  /** `s[lo..hi]` does not hold the character `c`. */
  predicate NoneOf(s: string, c: char, lo: nat, hi: nat)
    requires lo <= hi <= |s|
  {
    forall k :: lo <= k < hi ==> s[k] != c
  }

  datatype Pattern =
    | LanguageHeader  // (?m)^==[^=]+==\n
    | VerbHeader      // (?m)^={3,}Verb={3,}$
    | AnyHeader       // (?m)^={2,}.*={2,}$
    | BraceTemplate   // (?m)(# )?({{[^{]*}})
    | LineTemplate    // (?m)^{{2}[^{]+verb[^{]+}{2}$

  /** A match `s[start..end]`; `group` is where the last capture group (or,
      for the verb header, the word `Verb`) begins. */
  datatype Match = Match(start: nat, group: nat, end: nat)

  /** `^==[^=]+==\n` at `p`: the run of non-`=` characters stops at the
      first `=`, which must open the closing `==\n`. */
  function LanguageHeaderAt(s: string, p: nat): (r: Option<Match>)
    requires p <= |s|
    ensures r.Some? ==> r.value.start == r.value.group == p && LineStart(s, p)
    ensures r.Some? ==> p + 5 < r.value.end + 1 && r.value.end <= |s|
    ensures r.Some? ==> OccursAt(s, "==", p) && OccursAt(s, "==\n", r.value.end - 3)
    ensures r.Some? ==> p + 2 < r.value.end - 3 && NoneOf(s, '=', p + 2, r.value.end - 3)
  {
    if !LineStart(s, p) || !OccursAt(s, "==", p) then None
    else
      var j := FirstFrom(s, '=', p + 2);
      if j > p + 2 && OccursAt(s, "==\n", j) then Some(Match(p, p, j + 3)) else None
  }

  /** `^={3,}Verb={3,}$` at `p`: both runs of `=` are taken whole, since a
      shorter run would leave a `=` where `V` or a line end is needed. */
  function VerbHeaderAt(s: string, p: nat): (r: Option<Match>)
    requires p <= |s|
    ensures r.Some? ==> r.value.start == p && LineStart(s, p) && LineEnd(s, r.value.end)
    ensures r.Some? ==> p + 3 <= r.value.group && r.value.group + 7 <= r.value.end <= |s|
    ensures r.Some? ==> AllOf(s, '=', p, r.value.group) && OccursAt(s, "Verb", r.value.group)
    ensures r.Some? ==> AllOf(s, '=', r.value.group + 4, r.value.end)
  {
    if !LineStart(s, p) then None
    else
      var a := RunEnd(s, '=', p);
      if a < p + 3 || !OccursAt(s, "Verb", a) then None
      else
        var b := RunEnd(s, '=', a + 4);
        if b < a + 7 || !LineEnd(s, b) then None else Some(Match(p, a, b))
  }

  /** `e` is a line end preceded by `==`: where `={2,}$` can stop. */
  predicate ClosesAt(s: string, e: nat)
  {
    2 <= e <= |s| && s[e - 2] == '=' && s[e - 1] == '=' && LineEnd(s, e)
  }

  /** The largest `e` with `lo <= e <= hi` at which `={2,}$` can stop. */
  function LastClosingRun(s: string, lo: nat, hi: nat): (r: Option<nat>)
    requires hi <= |s|
    ensures r.Some? ==> lo <= r.value <= hi && ClosesAt(s, r.value)
    ensures r.Some? ==> forall e :: r.value < e <= hi ==> !ClosesAt(s, e)
    ensures r.None? ==> forall e :: lo <= e <= hi ==> !ClosesAt(s, e)
    decreases hi
  {
    if hi < lo then None
    else if ClosesAt(s, hi) then Some(hi)
    else if hi == 0 then None
    else LastClosingRun(s, lo, hi - 1)
  }

  /** `^={2,}.*={2,}$` at `p`, where `.` also matches a newline: a line that
      starts with `==`, up to the last line end at least four characters
      further on that is preceded by `==`. */
  function AnyHeaderAt(s: string, p: nat): (r: Option<Match>)
    requires p <= |s|
    ensures r.Some? ==> r.value.start == r.value.group == p && LineStart(s, p)
    ensures r.Some? ==> OccursAt(s, "==", p) && p + 4 <= r.value.end <= |s| && ClosesAt(s, r.value.end)
    ensures r.Some? ==> forall e :: r.value.end < e <= |s| ==> !ClosesAt(s, e)
    ensures r.None? && LineStart(s, p) && OccursAt(s, "==", p) ==>
              forall e :: p + 4 <= e <= |s| ==> !ClosesAt(s, e)
  {
    if !LineStart(s, p) || !OccursAt(s, "==", p) then None
    else
      match LastClosingRun(s, p + 4, |s|)
      case None => None
      case Some(e) => Some(Match(p, p, e))
  }

  /** `{{[^{]*}}` at `q`: the run of non-`{` characters after the opening
      braces, backed off to its last `}}`. */
  function BracesEnd(s: string, q: nat): (r: Option<nat>)
    requires q <= |s|
    ensures r.Some? ==> OccursAt(s, "{{", q) && q + 4 <= r.value <= |s|
    ensures r.Some? ==> OccursAt(s, "}}", r.value - 2) && NoneOf(s, '{', q + 2, r.value)
  {
    if !OccursAt(s, "{{", q) then None
    else
      var run := FirstFrom(s, '{', q + 2);
      match LastPair(s, '}', q + 2, run)
      case None => None
      case Some(j) =>
        assert s[j..j + 2] == "}}";
        Some(j + 2)
  }

  /** `(# )?({{[^{]*}})` at `p`; the optional list marker is taken when it
      can be. `group` is where the `{{...}}` capture begins. */
  function BraceTemplateAt(s: string, p: nat): (r: Option<Match>)
    requires p <= |s|
    ensures r.Some? ==> r.value.start == p && r.value.group + 4 <= r.value.end <= |s|
    ensures r.Some? ==> r.value.group == p || (r.value.group == p + 2 && OccursAt(s, "# ", p))
    ensures r.Some? ==> OccursAt(s, "{{", r.value.group) && OccursAt(s, "}}", r.value.end - 2)
    ensures r.Some? ==> NoneOf(s, '{', r.value.group + 2, r.value.end)
  {
    if OccursAt(s, "# ", p) && BracesEnd(s, p + 2).Some? then
      Some(Match(p, p + 2, BracesEnd(s, p + 2).value))
    else
      match BracesEnd(s, p)
      case None => None
      case Some(e) => Some(Match(p, p, e))
  }

  /** The condition `$` and `}}` and the inner `verb` put on the end `e` of
      a line template that starts at `p`. */
  predicate LineTemplateEndsAt(s: string, p: nat, e: nat)
    requires p + 6 <= e <= |s|
  {
    LineEnd(s, e) && OccursAt(s, "}}", e - 2) && Contains(s[p + 3..e - 3], "verb")
  }

  /** The largest `e` with `p + 6 <= e <= hi` at which a line template
      starting at `p` can end. */
  function LastLineTemplateEnd(s: string, p: nat, hi: nat): (r: Option<nat>)
    requires hi <= |s|
    ensures r.Some? ==> p + 6 <= r.value <= hi && LineTemplateEndsAt(s, p, r.value)
    decreases hi
  {
    if hi < p + 6 then None
    else if LineTemplateEndsAt(s, p, hi) then Some(hi)
    else LastLineTemplateEnd(s, p, hi - 1)
  }

  /** `^{{2}[^{]+verb[^{]+}{2}$` at `p`: `{{`, then non-`{` text holding
      `verb` with at least one character on each side, then `}}` at a line
      end; greedy quantifiers pick the furthest such end. */
  function LineTemplateAt(s: string, p: nat): (r: Option<Match>)
    requires p <= |s|
    ensures r.Some? ==> r.value.start == r.value.group == p && p + 6 <= r.value.end <= |s|
    ensures r.Some? ==> LineStart(s, p) && LineEnd(s, r.value.end)
    ensures r.Some? ==> OccursAt(s, "{{", p) && OccursAt(s, "}}", r.value.end - 2)
    ensures r.Some? ==> Contains(s[p + 3..r.value.end - 3], "verb")
    ensures r.Some? ==> NoneOf(s, '{', p + 2, r.value.end)
  {
    if !LineStart(s, p) || !OccursAt(s, "{{", p) then None
    else
      var run := FirstFrom(s, '{', p + 2);
      match LastLineTemplateEnd(s, p, run)
      case None => None
      case Some(e) => Some(Match(p, p, e))
  }

  /** What a line-template match at `m.start` guarantees about its text. */
  lemma LineTemplateFacts(s: string, m: Match)
    requires m.start <= |s| && MatchAt(LineTemplate, s, m.start) == Some(m)
    ensures m.start + 6 <= m.end <= |s| && LineStart(s, m.start) && LineEnd(s, m.end)
    ensures OccursAt(s, "{{", m.start) && OccursAt(s, "}}", m.end - 2)
    ensures Contains(s[m.start + 3..m.end - 3], "verb") && NoneOf(s, '{', m.start + 2, m.end)
  {
    assert LineTemplateAt(s, m.start) == Some(m);
  }

  /** The match of `pat` that the engine reports when it tries position `p`. */
  function MatchAt(pat: Pattern, s: string, p: nat): (r: Option<Match>)
    requires p <= |s|
    ensures r.Some? ==> r.value.start == p && p <= r.value.group < r.value.end <= |s|
  {
    match pat
    case LanguageHeader => LanguageHeaderAt(s, p)
    case VerbHeader => VerbHeaderAt(s, p)
    case AnyHeader => AnyHeaderAt(s, p)
    case BraceTemplate => BraceTemplateAt(s, p)
    case LineTemplate => LineTemplateAt(s, p)
  }

  /** The leftmost match of `pat` starting at or after `i`. */
  function FirstMatchFrom(pat: Pattern, s: string, i: nat): (r: Option<Match>)
    requires i <= |s|
    ensures r.Some? ==> i <= r.value.start < r.value.end <= |s|
    ensures r.Some? ==> MatchAt(pat, s, r.value.start) == r
    ensures r.Some? ==> forall q :: i <= q < r.value.start ==> MatchAt(pat, s, q).None?
    ensures r.None? ==> forall q :: i <= q <= |s| ==> MatchAt(pat, s, q).None?
    decreases |s| - i
  {
    var here := MatchAt(pat, s, i);
    if here.Some? then here
    else if i == |s| then None
    else
      var r := FirstMatchFrom(pat, s, i + 1);
      assert forall q :: i <= q <= i ==> MatchAt(pat, s, q) == here;
      r
  }

  /** The matches are in increasing order and do not overlap. */
  predicate Ordered(ms: seq<Match>)
  {
    forall k :: 0 <= k < |ms| - 1 ==> ms[k].end <= ms[k + 1].start
  }

  /** All non-overlapping matches of `pat` from position `i` on, as Go's
      `FindAll...(s, -1)` reports them: after each match the search resumes
      at its end. */
  function FindAll(pat: Pattern, s: string, i: nat): (r: seq<Match>)
    requires i <= |s|
    ensures Ordered(r)
    ensures forall k :: 0 <= k < |r| ==> i <= r[k].start < r[k].end <= |s|
    ensures forall k :: 0 <= k < |r| ==> MatchAt(pat, s, r[k].start) == Some(r[k])
    ensures |r| > 0 ==> forall q :: i <= q < r[0].start ==> MatchAt(pat, s, q).None?
    ensures r == [] ==> forall q :: i <= q <= |s| ==> MatchAt(pat, s, q).None?
    decreases |s| - i
  {
    match FirstMatchFrom(pat, s, i)
    case None => []
    case Some(m) => [m] + FindAll(pat, s, m.end)
  }

  /** The text of each match, in order. */
  function Texts(s: string, ms: seq<Match>): (r: seq<string>)
    requires forall k :: 0 <= k < |ms| ==> ms[k].start <= ms[k].end <= |s|
    ensures |r| == |ms|
    ensures forall k :: 0 <= k < |ms| ==> r[k] == s[ms[k].start..ms[k].end]
  {
    seq(|ms|, k requires 0 <= k < |ms| => s[ms[k].start..ms[k].end])
  }

  /** Go `FindAllString(s, -1)`. */
  function FindAllText(pat: Pattern, s: string): seq<string>
  {
    var ms := FindAll(pat, s, 0);
    Texts(s, ms)
  }

  /** A compiled pattern used for its leftmost match (Go `FindStringIndex`
      and `FindStringSubmatchIndex`). */
  type Finder = string -> Option<Match>

  /** A compiled pattern used for all its matches (`FindAll...(s, -1)`). */
  type Scanner = string -> seq<Match>

  /** A match lies inside a text of length `n`. */
  predicate Fits(m: Match, n: nat)
  {
    m.start <= m.group < m.end <= n
  }

  /** Matches in order, not overlapping, inside a text of length `n`. */
  predicate AllFit(ms: seq<Match>, n: nat)
  {
    Ordered(ms) && forall k :: 0 <= k < |ms| ==> Fits(ms[k], n)
  }

  /** A finder's answer as the model reads it: its match, provided it lies
      inside the text (the patterns below never report one that does not;
      see `SearchFinds`). */
  function Search(f: Finder, s: string): (r: Option<Match>)
    ensures r.Some? ==> Fits(r.value, |s|)
  {
    if f(s).Some? && Fits(f(s).value, |s|) then f(s) else None
  }

  /** A scanner's answer as the model reads it: its matches, provided they
      are in order and inside the text (see `ScanAllScans`). */
  function ScanAll(f: Scanner, s: string): (r: seq<Match>)
    ensures AllFit(r, |s|)
  {
    if AllFit(f(s), |s|) then f(s) else []
  }

  function Finds(pat: Pattern): Finder
  {
    s => FirstMatchFrom(pat, s, 0)
  }

  function Scans(pat: Pattern): Scanner
  {
    s => FindAll(pat, s, 0)
  }

  /** For a compiled pattern, reading its answer loses nothing: it is the
      leftmost match. */
  lemma SearchFinds(pat: Pattern, s: string)
    ensures Search(Finds(pat), s) == FirstMatchFrom(pat, s, 0)
  {
    if FirstMatchFrom(pat, s, 0).Some? {
      var m := FirstMatchFrom(pat, s, 0).value;
      assert MatchAt(pat, s, m.start) == Some(m);
    }
  }

  /** For a compiled pattern, reading its answer loses nothing: it is the
      list of all matches. */
  lemma ScanAllScans(pat: Pattern, s: string)
    ensures ScanAll(Scans(pat), s) == FindAll(pat, s, 0)
  {
    var r := FindAll(pat, s, 0);
    forall k | 0 <= k < |r|
      ensures Fits(r[k], |s|)
    {
      assert MatchAt(pat, s, r[k].start) == Some(r[k]);
    }
  }
}
