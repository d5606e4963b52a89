/** The page loop of the current pipeline: like the older ones, except
    that pages in a few special namespaces are skipped before they reach
    the parser. */
module AnvilParser {
  import opened Text
  import opened Pages
  import opened Intake
  import opened PageSource

  /** The namespaces whose pages are skipped. */
  const SpecialNamespaces: set<string> := {"User", "Template", "Module", "Category", "Thread", "Talk"}

  /** `isSpecialPage`: the part of the title before its first colon names a
      special namespace. A title without a colon is not special. */
  predicate IsSpecialPage(title: string)
  {
    var c := FirstFrom(title, ':', 0);
    c < |title| && title[..c] in SpecialNamespaces
  }

  /** The title starts with namespace `ns` and a colon. */
  predicate HasNamespace(title: string, ns: string)
  {
    |ns| < |title| && title[..|ns|] == ns && title[|ns|] == ':'
  }

  /** A namespace without a colon ends at the title's first colon. */
  lemma {:induction false} FirstColon(title: string, ns: string)
    requires HasNamespace(title, ns) && forall q :: 0 <= q < |ns| ==> ns[q] != ':'
    ensures FirstFrom(title, ':', 0) == |ns| && title[..FirstFrom(title, ':', 0)] == ns
  {
    var c := FirstFrom(title, ':', 0);
    if c < |ns| {
      assert false;
    }
  }

  /** A title is special exactly when it starts with one of the six
      namespaces followed by a colon. */
  lemma {:induction false} SpecialPageNamespaces(title: string)
    ensures IsSpecialPage(title) <==>
            HasNamespace(title, "User") || HasNamespace(title, "Template") || HasNamespace(title, "Module") ||
            HasNamespace(title, "Category") || HasNamespace(title, "Thread") || HasNamespace(title, "Talk")
  {
    var c := FirstFrom(title, ':', 0);
    if IsSpecialPage(title) {
      var ns := title[..c];
      assert ns in SpecialNamespaces;
      assert title[..|ns|] == ns;
    }
    if HasNamespace(title, "User") {
      FirstColon(title, "User");
    } else if HasNamespace(title, "Template") {
      FirstColon(title, "Template");
    } else if HasNamespace(title, "Module") {
      FirstColon(title, "Module");
    } else if HasNamespace(title, "Category") {
      FirstColon(title, "Category");
    } else if HasNamespace(title, "Thread") {
      FirstColon(title, "Thread");
    } else if HasNamespace(title, "Talk") {
      FirstColon(title, "Talk");
    }
  }

  /** `ProcessPages`: hands the parser every page outside the special
      namespaces, in document order, until the parser says stop or fails,
      the input ends or the decoder fails. The pages it hands over are a
      prefix of what the older loop would hand over, less the special
      pages, and all of them unless the parser's last answer ended the
      loop. */
  method ProcessPages(pulls: seq<Pull>, parse: Consumer) returns (delivered: seq<Page>, err: Option<string>)
    ensures Outcome(delivered, err) == Run(pulls, IsSpecialPage, parse, 0, [])
    ensures forall k :: 0 <= k < |delivered| ==> !IsSpecialPage(delivered[k].title)
    ensures var pages := Unskipped(Offered(pulls, NoSkip, 0), IsSpecialPage);
            |delivered| <= |pages| && delivered == pages[..|delivered|]
    ensures delivered == Unskipped(Offered(pulls, NoSkip, 0), IsSpecialPage) ||
            (delivered != [] && LastAnswer(parse, delivered) != Answer(true, None))
  {
    delivered, err := Pump(pulls, IsSpecialPage, parse);
    RunOrder(pulls, IsSpecialPage, parse, 0, [], Outcome(delivered, err));
    RunComplete(pulls, IsSpecialPage, parse, 0, [], Outcome(delivered, err));
    OfferedUnskipped(pulls, IsSpecialPage, 0);
    OfferedFiltered(pulls, IsSpecialPage, 0);
    assert delivered[0..] == delivered;
    forall k | 0 <= k < |delivered|
      ensures !IsSpecialPage(delivered[k].title)
    {
      assert delivered[k] == Offered(pulls, IsSpecialPage, 0)[k];
    }
  }
}
