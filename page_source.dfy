/** The loop shared by the three `ProcessPages` functions: pull tokens from
    an XML decoder, and hand each `page` element, decoded, to a consumer
    until the consumer says stop or fails, the input ends, or the decoder
    fails. The decoder is a parameter: the sequence of answers its `Token`
    calls give, each a token or an error (`EOF` at the end of the input).
    Decoding a `page` element is folded into its start token, which carries
    the page it decodes to. A consumer is the parser's `Parse` (or the older
    `Consume`): its answer may depend on the pages it was handed before. */
module PageSource {
  import opened Text
  import opened Pages
  import opened Intake

  datatype Token = StartElement(local: string, decoded: Page) | OtherToken

  /** What one `Token` call returns. */
  datatype Pull = Pull(token: Option<Token>, err: Option<string>)

  /** The decoder's error at the end of the input (`io.EOF`). */
  const EOF := "EOF"

  type Consumer = (seq<Page>, Page) -> Answer

  /** What `ProcessPages` did: the pages it handed over, in order, and the
      error it returned. */
  datatype Outcome = Outcome(delivered: seq<Page>, err: Option<string>)

  /** A pull carries a page element that is handed over unless `skip`
      rejects its title. */
  predicate IsPage(pl: Pull)
  {
    pl.token.Some? && pl.token.value.StartElement? && pl.token.value.local == "page"
  }

  /** A pull that ends the loop: a decoder error other than the end of the
      input, or no token. */
  predicate Stops(pl: Pull)
  {
    (pl.err.Some? && pl.err.value != EOF) || pl.token.None?
  }

  /** The loop from pull `i` on, with `delivered` handed over so far. */
  function Run(pulls: seq<Pull>, skip: string -> bool, consumer: Consumer, i: nat, delivered: seq<Page>): Outcome
    requires i <= |pulls|
    decreases |pulls| - i
  {
    if i == |pulls| then Outcome(delivered, None)
    else
      var pl := pulls[i];
      if pl.err.Some? && pl.err.value != EOF then Outcome(delivered, pl.err)
      else if pl.token.None? then Outcome(delivered, None)
      else if IsPage(pl) && !skip(pl.token.value.decoded.title) then
        var page := pl.token.value.decoded;
        var a := consumer(delivered, page);
        if a.err.Some? then Outcome(delivered + [page], a.err)
        else if !a.accepted then Outcome(delivered + [page], None)
        else Run(pulls, skip, consumer, i + 1, delivered + [page])
      else Run(pulls, skip, consumer, i + 1, delivered)
  }

  /** The pages offered from pull `i` on: those of the page elements whose
      title `skip` does not reject, in document order, up to the first pull
      that ends the loop. */
  function Offered(pulls: seq<Pull>, skip: string -> bool, i: nat): seq<Page>
    requires i <= |pulls|
    decreases |pulls| - i
  {
    if i == |pulls| || Stops(pulls[i]) then []
    else if IsPage(pulls[i]) && !skip(pulls[i].token.value.decoded.title) then
      [pulls[i].token.value.decoded] + Offered(pulls, skip, i + 1)
    else Offered(pulls, skip, i + 1)
  }

  /** No title is rejected. */
  predicate NoSkip(title: string)
  {
    false
  }

  /** The pages of `ps` whose title `skip` does not reject. */
  function Unskipped(ps: seq<Page>, skip: string -> bool): seq<Page>
  {
    if ps == [] then []
    else (if skip(ps[0].title) then [] else [ps[0]]) + Unskipped(ps[1..], skip)
  }

  /** The consumer's answer to the last page handed over. */
  function LastAnswer(consumer: Consumer, delivered: seq<Page>): Answer
    requires delivered != []
  {
    consumer(delivered[..|delivered| - 1], delivered[|delivered| - 1])
  }

  /** No offered page has a title `skip` rejects. */
  lemma {:induction false} OfferedUnskipped(pulls: seq<Pull>, skip: string -> bool, i: nat)
    requires i <= |pulls|
    ensures forall k :: 0 <= k < |Offered(pulls, skip, i)| ==> !skip(Offered(pulls, skip, i)[k].title)
    decreases |pulls| - i
  {
    if i < |pulls| && !Stops(pulls[i]) {
      OfferedUnskipped(pulls, skip, i + 1);
    }
  }

  /** A filter offers exactly the unfiltered pages it does not reject, in
      the same order. */
  lemma {:induction false} OfferedFiltered(pulls: seq<Pull>, skip: string -> bool, i: nat)
    requires i <= |pulls|
    ensures Offered(pulls, skip, i) == Unskipped(Offered(pulls, NoSkip, i), skip)
    decreases |pulls| - i
  {
    if i < |pulls| && !Stops(pulls[i]) {
      OfferedFiltered(pulls, skip, i + 1);
      var rest := Offered(pulls, NoSkip, i + 1);
      if IsPage(pulls[i]) {
        var page := pulls[i].token.value.decoded;
        assert Offered(pulls, NoSkip, i) == [page] + rest;
        assert ([page] + rest)[1..] == rest;
      }
    }
  }

  /** The pages handed over extend the earlier ones by a prefix of the
      offered pages: only offered pages, in document order. */
  lemma {:induction false} RunOrder(pulls: seq<Pull>, skip: string -> bool, consumer: Consumer, i: nat,
                                    delivered: seq<Page>, r: Outcome)
    requires i <= |pulls| && r == Run(pulls, skip, consumer, i, delivered)
    ensures |delivered| <= |r.delivered| && r.delivered[..|delivered|] == delivered
    ensures var added := r.delivered[|delivered|..];
            |added| <= |Offered(pulls, skip, i)| && added == Offered(pulls, skip, i)[..|added|]
    decreases |pulls| - i
  {
    if i < |pulls| && !Stops(pulls[i]) {
      var pl := pulls[i];
      var offered := Offered(pulls, skip, i);
      if IsPage(pl) && !skip(pl.token.value.decoded.title) {
        var page := pl.token.value.decoded;
        var a := consumer(delivered, page);
        if a.err.None? && a.accepted {
          RunOrder(pulls, skip, consumer, i + 1, delivered + [page], r);
          var added := r.delivered[|delivered|..];
          assert added == [page] + r.delivered[|delivered| + 1..];
        } else {
          assert r.delivered[|delivered|..] == [page];
        }
      } else {
        RunOrder(pulls, skip, consumer, i + 1, delivered, r);
      }
    } else {
      assert r.delivered[|delivered|..] == [];
    }
  }

  /** Every page handed over but the last was accepted without an error;
      a refusal or an error of the consumer ends the loop at once, and the
      loop then returns the consumer's error (none after a plain refusal). */
  lemma {:induction false} RunStops(pulls: seq<Pull>, skip: string -> bool, consumer: Consumer, i: nat,
                                    delivered: seq<Page>, r: Outcome)
    requires i <= |pulls| && r == Run(pulls, skip, consumer, i, delivered)
    ensures |delivered| <= |r.delivered| && r.delivered[..|delivered|] == delivered
    ensures forall k :: |delivered| <= k < |r.delivered| - 1 ==>
              consumer(r.delivered[..k], r.delivered[k]) == Answer(true, None)
    ensures |delivered| < |r.delivered| && LastAnswer(consumer, r.delivered) != Answer(true, None) ==>
              r.err == LastAnswer(consumer, r.delivered).err
    decreases |pulls| - i
  {
    if i < |pulls| && !Stops(pulls[i]) {
      var pl := pulls[i];
      if IsPage(pl) && !skip(pl.token.value.decoded.title) {
        var page := pl.token.value.decoded;
        var a := consumer(delivered, page);
        var next := delivered + [page];
        if a.err.None? && a.accepted {
          RunStops(pulls, skip, consumer, i + 1, next, r);
          assert r.delivered[..|delivered|] == next[..|delivered|] == delivered;
          assert r.delivered[..|delivered|] == delivered && r.delivered[|delivered|] == page;
        } else {
          assert r.delivered == next && next[..|next| - 1] == delivered;
        }
      } else {
        RunStops(pulls, skip, consumer, i + 1, delivered, r);
      }
    }
  }

  /** Every offered page is handed over unless the consumer stopped the
      loop: then the last page handed over got a refusal or an error. */
  lemma {:induction false} RunComplete(pulls: seq<Pull>, skip: string -> bool, consumer: Consumer, i: nat,
                                       delivered: seq<Page>, r: Outcome)
    requires i <= |pulls| && r == Run(pulls, skip, consumer, i, delivered)
    ensures r.delivered == delivered + Offered(pulls, skip, i) ||
            (|delivered| < |r.delivered| && LastAnswer(consumer, r.delivered) != Answer(true, None))
    decreases |pulls| - i
  {
    if i < |pulls| && !Stops(pulls[i]) {
      var pl := pulls[i];
      if IsPage(pl) && !skip(pl.token.value.decoded.title) {
        var page := pl.token.value.decoded;
        var a := consumer(delivered, page);
        var next := delivered + [page];
        if a.err.None? && a.accepted {
          RunComplete(pulls, skip, consumer, i + 1, next, r);
          var later := Offered(pulls, skip, i + 1);
          assert Offered(pulls, skip, i) == [page] + later;
          assert next + later == delivered + ([page] + later);
        } else {
          assert r.delivered == next && next[..|next| - 1] == delivered;
        }
      } else {
        RunComplete(pulls, skip, consumer, i + 1, delivered, r);
      }
    } else {
      assert delivered + [] == delivered;
    }
  }

  /** An error the loop returns is the consumer's error for the last page
      handed over, or a decoder error other than the end of the input. */
  lemma {:induction false} RunErrors(pulls: seq<Pull>, skip: string -> bool, consumer: Consumer, i: nat,
                                     delivered: seq<Page>, r: Outcome)
    requires i <= |pulls| && r == Run(pulls, skip, consumer, i, delivered)
    ensures r.err.Some? ==>
              (|delivered| < |r.delivered| && r.err == LastAnswer(consumer, r.delivered).err) ||
              (r.err.value != EOF && exists j :: i <= j < |pulls| && pulls[j].err == r.err)
    decreases |pulls| - i
  {
    if i < |pulls| && !Stops(pulls[i]) {
      var pl := pulls[i];
      if IsPage(pl) && !skip(pl.token.value.decoded.title) {
        var page := pl.token.value.decoded;
        var a := consumer(delivered, page);
        var next := delivered + [page];
        if a.err.None? && a.accepted {
          RunErrors(pulls, skip, consumer, i + 1, next, r);
        } else {
          assert r.delivered == next && next[..|next| - 1] == delivered;
        }
      } else {
        RunErrors(pulls, skip, consumer, i + 1, delivered, r);
      }
    }
  }

  /** The loop as written: the loop condition `t != nil` is tested before
      the error, so a pull with no token ends the loop with no error
      whatever the decoder reported. */
  function RunAsWritten(pulls: seq<Pull>, skip: string -> bool, consumer: Consumer, i: nat,
                        delivered: seq<Page>): Outcome
    requires i <= |pulls|
    decreases |pulls| - i
  {
    if i == |pulls| then Outcome(delivered, None)
    else
      var pl := pulls[i];
      if pl.token.None? then Outcome(delivered, None)
      else if pl.err.Some? then Outcome(delivered, pl.err)
      else if IsPage(pl) && !skip(pl.token.value.decoded.title) then
        var page := pl.token.value.decoded;
        var a := consumer(delivered, page);
        if a.err.Some? then Outcome(delivered + [page], a.err)
        else if !a.accepted then Outcome(delivered + [page], None)
        else RunAsWritten(pulls, skip, consumer, i + 1, delivered + [page])
      else RunAsWritten(pulls, skip, consumer, i + 1, delivered)
  }

  /** The decoder's contract: each `Token` call returns a token or an
      error, never both. */
  predicate DecoderContract(pulls: seq<Pull>)
  {
    forall j :: 0 <= j < |pulls| ==> (pulls[j].token.Some? <==> pulls[j].err.None?)
  }

  /** As written, under the decoder's contract, the loop never returns a
      decoder error: every error it returns is the consumer's. */
  lemma {:induction false} AsWrittenSwallowsDecoderErrors(pulls: seq<Pull>, skip: string -> bool,
                                                          consumer: Consumer, i: nat, delivered: seq<Page>)
    requires i <= |pulls| && DecoderContract(pulls)
    ensures var r := RunAsWritten(pulls, skip, consumer, i, delivered);
            r.err.Some? ==> |delivered| < |r.delivered| && r.err == LastAnswer(consumer, r.delivered).err
    decreases |pulls| - i
  {
    if i < |pulls| && pulls[i].token.Some? {
      var pl := pulls[i];
      if IsPage(pl) && !skip(pl.token.value.decoded.title) {
        var page := pl.token.value.decoded;
        var a := consumer(delivered, page);
        var next := delivered + [page];
        if a.err.None? && a.accepted {
          AsWrittenSwallowsDecoderErrors(pulls, skip, consumer, i + 1, next);
        } else {
          assert next[..|next| - 1] == delivered;
        }
      } else {
        AsWrittenSwallowsDecoderErrors(pulls, skip, consumer, i + 1, delivered);
      }
    }
  }

  /** A malformed document: the first `Token` call fails. As written the
      loop returns no error; the intended loop returns the decoder's. */
  lemma MalformedInputCounterexample(skip: string -> bool, consumer: Consumer)
    ensures var pulls := [Pull(None, Some("XML syntax error on line 1: unexpected EOF"))];
            DecoderContract(pulls) &&
            RunAsWritten(pulls, skip, consumer, 0, []) == Outcome([], None) &&
            Run(pulls, skip, consumer, 0, []) == Outcome([], Some("XML syntax error on line 1: unexpected EOF"))
  {
  }

  /** Where the decoder reports no error but the end of the input, the
      loop as written and the intended loop agree. */
  lemma {:induction false} AsWrittenAgreesWithoutErrors(pulls: seq<Pull>, skip: string -> bool,
                                                        consumer: Consumer, i: nat, delivered: seq<Page>)
    requires i <= |pulls| && DecoderContract(pulls)
    requires forall j :: i <= j < |pulls| && pulls[j].err.Some? ==> pulls[j].err.value == EOF
    ensures RunAsWritten(pulls, skip, consumer, i, delivered) == Run(pulls, skip, consumer, i, delivered)
    decreases |pulls| - i
  {
    if i < |pulls| && pulls[i].token.Some? {
      var pl := pulls[i];
      if IsPage(pl) && !skip(pl.token.value.decoded.title) {
        var page := pl.token.value.decoded;
        AsWrittenAgreesWithoutErrors(pulls, skip, consumer, i + 1, delivered + [page]);
      } else {
        AsWrittenAgreesWithoutErrors(pulls, skip, consumer, i + 1, delivered);
      }
    }
  }

  /** The token loop, with the decoder's error tested before the end of
      the input (see `RunAsWritten` for the loop as written). */
  method Pump(pulls: seq<Pull>, skip: string -> bool, consumer: Consumer) returns (delivered: seq<Page>, err: Option<string>)
    ensures Outcome(delivered, err) == Run(pulls, skip, consumer, 0, [])
  {
    delivered := [];
    var i := 0;
    while i < |pulls|
      invariant i <= |pulls|
      invariant Run(pulls, skip, consumer, i, delivered) == Run(pulls, skip, consumer, 0, [])
    {
      var pl := pulls[i];
      if pl.err.Some? && pl.err.value != EOF {
        return delivered, pl.err;
      }
      if pl.token.None? {
        return delivered, None;
      }
      match pl.token.value {
        case StartElement(local, page) =>
          if local == "page" && !skip(page.title) {
            var a := consumer(delivered, page);
            delivered := delivered + [page];
            if a.err.Some? {
              return delivered, a.err;
            }
            if !a.accepted {
              return delivered, None;
            }
          }
        case OtherToken =>
      }
      i := i + 1;
    }
    err := None;
  }
}
