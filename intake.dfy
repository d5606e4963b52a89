/** The page-limit gate shared by the three verb parsers. A parser built
    with limit N accepts its first N pages and refuses every later one; with
    limit -1 it accepts every page and never counts. An accepted page is put
    on the job queue; a refused one changes nothing. */
module Intake {
  import opened Text
  import opened Pages

  /** The constructors' argument errors, the same in all three parsers. */
  const ThreadCountError := "Thread count for VerbConsumer must be at least 1"
  const PageLimitError := "pageLimit must be in {-1} U [1, INT_MAX]"

  /** What `Parse` answers: whether the page was taken, and an error. */
  datatype Answer = Answer(accepted: bool, err: Option<string>)

  /** The counter and the pages queued so far. */
  datatype Gate = Gate(consumed: int, queue: seq<Page>)

  /** The gate is open unless a limit is set and it has been reached. */
  predicate Open(limit: int, consumed: int)
  {
    !(consumed >= limit && limit != -1)
  }

  /** The counter's bound: with a limit, between 0 and the limit; without
      one, it stays 0. */
  predicate Counted(limit: int, consumed: int)
  {
    limit >= -1 && (if limit == -1 then consumed == 0 else 0 <= consumed <= limit)
  }

  /** One `Parse` call on the gate. */
  function Step(limit: int, g: Gate, page: Page): Gate
  {
    if !Open(limit, g.consumed) then g
    else Gate(if limit != -1 then g.consumed + 1 else g.consumed, g.queue + [page])
  }

  /** The answers and the final gate after a run of `Parse` calls. */
  function Feed(limit: int, g: Gate, pages: seq<Page>): (Gate, seq<bool>)
    decreases |pages|
  {
    if pages == [] then (g, [])
    else
      var accepted := Open(limit, g.consumed);
      var (last, answers) := Feed(limit, Step(limit, g, pages[0]), pages[1..]);
      (last, [accepted] + answers)
  }

  function Min(a: int, b: int): int
  {
    if a <= b then a else b
  }

  /** With limit N and c pages already taken, a run accepts exactly the
      next N - c pages, in call order, queues those and no other, and
      refuses every later call. */
  lemma {:induction false} FeedLimited(limit: int, g: Gate, pages: seq<Page>)
    requires 0 <= g.consumed <= limit
    ensures var (last, answers) := Feed(limit, g, pages);
            var taken := Min(limit - g.consumed, |pages|);
            |answers| == |pages| &&
            (forall k :: 0 <= k < |pages| ==> answers[k] == (k < limit - g.consumed)) &&
            last == Gate(g.consumed + taken, g.queue + pages[..taken])
    decreases |pages|
  {
    if pages != [] {
      var next := Step(limit, g, pages[0]);
      FeedLimited(limit, next, pages[1..]);
      var (last, answers) := Feed(limit, next, pages[1..]);
      var taken := Min(limit - g.consumed, |pages|);
      if g.consumed < limit {
        assert next.queue + pages[1..][..taken - 1] == g.queue + pages[..taken];
      } else {
        assert pages[..taken] == [];
      }
      assert forall k :: 1 <= k < |pages| ==> Feed(limit, g, pages).1[k] == answers[k - 1];
    }
  }

  /** With limit -1 every call is accepted, every page queued in order and
      the counter left alone. */
  lemma {:induction false} FeedUnlimited(g: Gate, pages: seq<Page>)
    ensures var (last, answers) := Feed(-1, g, pages);
            |answers| == |pages| && (forall k :: 0 <= k < |pages| ==> answers[k]) &&
            last == Gate(g.consumed, g.queue + pages)
    decreases |pages|
  {
    if pages != [] {
      var next := Step(-1, g, pages[0]);
      FeedUnlimited(next, pages[1..]);
      var (last, answers) := Feed(-1, next, pages[1..]);
      assert next.queue + pages[1..] == g.queue + pages;
      assert forall k :: 1 <= k < |pages| ==> Feed(-1, g, pages).1[k] == answers[k - 1];
    }
  }

  /** A verb parser's page intake: its limit, its counter and its job
      queue. The queue stands for the channel the pages are sent into. */
  class PageIntake {
    const pageLimit: int
    var pagesConsumed: int
    var queue: seq<Page>
    /** The error `Parse` gives once the limit is reached. */
    const refusal: string

    ghost predicate Valid()
      reads this
    {
      Counted(pageLimit, pagesConsumed)
    }

    constructor (pageLimit: int, refusal: string)
      requires pageLimit >= -1
      ensures Valid()
      ensures this.pageLimit == pageLimit && this.refusal == refusal
      ensures pagesConsumed == 0 && queue == []
    {
      this.pageLimit := pageLimit;
      this.refusal := refusal;
      pagesConsumed := 0;
      queue := [];
    }

    /** `Parse`: refuses once the limit is reached, otherwise counts the
        page (when limited) and queues it. */
    method Parse(page: Page) returns (a: Answer)
      requires Valid()
      modifies this
      ensures Valid()
      ensures a.accepted == Open(pageLimit, old(pagesConsumed))
      ensures a.accepted ==> a.err.None?
      ensures !a.accepted ==> a.err == Some(refusal)
      ensures Gate(pagesConsumed, queue) == Step(pageLimit, old(Gate(pagesConsumed, queue)), page)
    {
      if pagesConsumed >= pageLimit && pageLimit != -1 {
        return Answer(false, Some(refusal));
      }
      if pageLimit != -1 {
        pagesConsumed := pagesConsumed + 1;
      }
      queue := queue + [page];
      a := Answer(true, None);
    }
  }
}
