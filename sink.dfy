/** The database and conjugator calls the pipeline makes, kept as a log.
    What the database answers is a parameter of the model: a reply function
    of the calls made so far and the new call, so that every reply the code
    can react to (an id, an error, a yes or no) is covered. */
module Sink {
  import opened Text

  datatype Call =
    | InsertInfinitive(word: string, languageId: int)
    | InsertPlural(word: string, tense: string, tableId: int)
    | InsertAsTense(form: string, tableId: int, tense: string, person: string, plural: bool)
    | InsertLanguage(language: string)
    | InsertWord(word: string)
    | InsertVerb(wordId: int, languageId: int)
    | InsertVerbOf(language: string, word: string)
    | InsertTemplate(template: string, verbId: int)
    | LanguageExists(language: string)
    | Conjugate(language: string, template: string)

  /** An id (table, language, word or verb id) and an optional error; for
      `LanguageExists` the absence of an error means yes. */
  datatype Reply = Reply(id: int, err: Option<string>)

  type Responder = (seq<Call>, Call) -> Reply

  class Store {
    var log: seq<Call>
    const respond: Responder

    constructor (respond: Responder)
      ensures log == [] && this.respond == respond
    {
      log := [];
      this.respond := respond;
    }

    /** Issues one call: it is appended to the log and answered. */
    method Send(c: Call) returns (r: Reply)
      modifies this
      ensures log == old(log) + [c]
      ensures r == respond(old(log), c)
    {
      r := respond(log, c);
      log := log + [c];
    }
  }

  /** The number of calls of the given kind in a log. */
  function CountOf(log: seq<Call>, kind: Call -> bool): nat
  {
    if log == [] then 0 else (if kind(log[0]) then 1 else 0) + CountOf(log[1..], kind)
  }

  lemma {:induction false} CountOfAppend(a: seq<Call>, b: seq<Call>, kind: Call -> bool)
    ensures CountOf(a + b, kind) == CountOf(a, kind) + CountOf(b, kind)
  {
    if a == [] {
      assert a + b == b;
    } else {
      assert (a + b)[1..] == a[1..] + b;
      CountOfAppend(a[1..], b, kind);
    }
  }

  /** A log with no call of the given kind counts none. */
  lemma {:induction false} CountOfNone(log: seq<Call>, kind: Call -> bool)
    requires forall p :: 0 <= p < |log| ==> !kind(log[p])
    ensures CountOf(log, kind) == 0
  {
    if log != [] {
      CountOfNone(log[1..], kind);
    }
  }

  /** The strings `pick` finds in the calls of a log, in order. */
  function Picked(log: seq<Call>, pick: Call -> Option<string>): seq<string>
  {
    if log == [] then []
    else (if pick(log[0]).Some? then [pick(log[0]).value] else []) + Picked(log[1..], pick)
  }

  lemma {:induction false} PickedAppend(a: seq<Call>, b: seq<Call>, pick: Call -> Option<string>)
    ensures Picked(a + b, pick) == Picked(a, pick) + Picked(b, pick)
  {
    if a == [] {
      assert a + b == b;
    } else {
      assert (a + b)[1..] == a[1..] + b;
      PickedAppend(a[1..], b, pick);
    }
  }

  lemma {:induction false} PickedNone(log: seq<Call>, pick: Call -> Option<string>)
    requires forall p :: 0 <= p < |log| ==> pick(log[p]).None?
    ensures Picked(log, pick) == []
  {
    if log != [] {
      PickedNone(log[1..], pick);
    }
  }

  function TemplateOf(c: Call): Option<string>
  {
    if c.InsertTemplate? then Some(c.template) else None
  }

  function LanguageOf(c: Call): Option<string>
  {
    if c.InsertLanguage? then Some(c.language) else None
  }

  function LookupOf(c: Call): Option<string>
  {
    if c.LanguageExists? then Some(c.language) else None
  }

  /** The texts of the template inserts in a log, in order. */
  function TemplatesOf(log: seq<Call>): seq<string>
  {
    Picked(log, TemplateOf)
  }

  /** The languages of the language inserts in a log, in order. */
  function LanguagesOf(log: seq<Call>): seq<string>
  {
    Picked(log, LanguageOf)
  }

  /** The languages looked up in a log, in order. */
  function LookupsOf(log: seq<Call>): seq<string>
  {
    Picked(log, LookupOf)
  }
}
