/** The page loop of `parse/page.go`: every page element goes to the
    PageConsumer's `Consume`, with no filtering by title. */
module ParsePage {
  import opened Text
  import opened Pages
  import opened Intake
  import opened PageSource

  /** `ProcessPages`: hands over every page element in document order,
      and stops early only when `Consume` says stop or fails (then the last
      page handed over is the one it refused), or the decoder fails. */
  method ProcessPages(pulls: seq<Pull>, consume: Consumer) returns (delivered: seq<Page>, err: Option<string>)
    ensures Outcome(delivered, err) == Run(pulls, NoSkip, consume, 0, [])
    ensures var pages := Offered(pulls, NoSkip, 0);
            |delivered| <= |pages| && delivered == pages[..|delivered|]
    ensures delivered == Offered(pulls, NoSkip, 0) || (delivered != [] && LastAnswer(consume, delivered) != Answer(true, None))
  {
    delivered, err := Pump(pulls, NoSkip, consume);
    RunOrder(pulls, NoSkip, consume, 0, [], Outcome(delivered, err));
    RunComplete(pulls, NoSkip, consume, 0, [], Outcome(delivered, err));
    assert delivered[0..] == delivered;
  }
}
