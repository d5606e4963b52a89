/** The verb parser of the current pipeline: the argument checks of its
    constructor in front of the page-limit gate. Unlike the older parsers
    it refuses a page limit of 0. */
module AnvilVerbParser {
  import opened Text
  import opened Intake

  /** The constructor's argument check: the thread count must be positive
      and the page limit in {-1} U [1, INT_MAX]; the thread count is
      checked first. */
  function Check(threadCount: int, pageLimit: int): (r: Option<string>)
    ensures r.None? <==> threadCount >= 1 && (pageLimit == -1 || pageLimit >= 1)
    ensures threadCount < 1 ==> r == Some(ThreadCountError)
    ensures threadCount >= 1 && (pageLimit < -1 || pageLimit == 0) ==> r == Some(PageLimitError)
  {
    if threadCount < 1 then Some(ThreadCountError)
    else if pageLimit < -1 || pageLimit == 0 then Some(PageLimitError)
    else None
  }

  /** `NewVerbParser`: the gate of a new parser, or the argument error. */
  method NewVerbParser(threadCount: int, pageLimit: int) returns (p: PageIntake?, err: Option<string>)
    ensures err == Check(threadCount, pageLimit)
    ensures err.None? <==> p != null
    ensures p != null ==> fresh(p) && p.Valid() && p.pageLimit == pageLimit && p.pagesConsumed == 0 &&
                          p.queue == [] && p.refusal == "VerbParser is no longer accepting Pages."
  {
    err := Check(threadCount, pageLimit);
    if err.Some? {
      return null, err;
    }
    p := new PageIntake(pageLimit, "VerbParser is no longer accepting Pages.");
  }
}
