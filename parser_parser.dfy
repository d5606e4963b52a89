/** The page loop of `parser/parser.go`: every page element goes to the
    Parser's `Parse`, with no filtering by title. */
module ParserParser {
  import opened Text
  import opened Pages
  import opened Intake
  import opened PageSource

  /** `ProcessPages`: hands over every page element in document order,
      and stops early only when `Parse` says stop or fails (then the last
      page handed over is the one it refused), or the decoder fails. */
  method ProcessPages(pulls: seq<Pull>, parse: Consumer) returns (delivered: seq<Page>, err: Option<string>)
    ensures Outcome(delivered, err) == Run(pulls, NoSkip, parse, 0, [])
    ensures var pages := Offered(pulls, NoSkip, 0);
            |delivered| <= |pages| && delivered == pages[..|delivered|]
    ensures delivered == Offered(pulls, NoSkip, 0) || (delivered != [] && LastAnswer(parse, delivered) != Answer(true, None))
  {
    delivered, err := Pump(pulls, NoSkip, parse);
    RunOrder(pulls, NoSkip, parse, 0, [], Outcome(delivered, err));
    RunComplete(pulls, NoSkip, parse, 0, [], Outcome(delivered, err));
    assert delivered[0..] == delivered;
  }
}
