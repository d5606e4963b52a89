/** The Dutch conjugator. A template such as
    `{{nl-verb form of|p=1|n=sg|t=pres|m=ind|krijgen}}` names the infinitive
    it inflects (after the last `|`) and the grammatical mood, tense, number
    and persons of the form; the conjugator files the form into the
    conjugation table of that infinitive. The bare template `{{nl-verb}}`
    marks an infinitive, which opens a new table. Infinitives already seen
    are remembered with their table id in a cache. */
module Dutch {
  import opened Text
  import opened Sink

  /** The verb handed to the conjugator; `tableId` is the field the
      conjugator sets. */
  datatype Verb = Verb(text: string, template: string, languageId: int, tableId: int)

  /** The template of an infinitive. */
  const InfinitiveTemplate := "{{nl-verb}}"

  // Field extraction. The patterns are compiled with Go's regexp package:
  // the leftmost match wins and `.` does not match a newline.

  /** `key` occurs at `i` and is followed by `n` characters that are not
      newlines: a match of `key(.{n})`. */
  predicate FieldAt(s: string, key: string, n: nat, i: nat)
  {
    OccursAt(s, key, i) && i + |key| + n <= |s| &&
    forall k :: i + |key| <= k < i + |key| + n ==> s[k] != '\n'
  }

  function FieldFrom(s: string, key: string, n: nat, i: nat): (r: Option<nat>)
    requires i <= |s|
    ensures r.Some? ==> i <= r.value && FieldAt(s, key, n, r.value)
    ensures r.Some? ==> forall j :: i <= j < r.value ==> !FieldAt(s, key, n, j)
    ensures r.None? ==> forall j :: i <= j <= |s| ==> !FieldAt(s, key, n, j)
    decreases |s| - i
  {
    if FieldAt(s, key, n, i) then Some(i)
    else if i == |s| then None
    else FieldFrom(s, key, n, i + 1)
  }

  /** The capture of the leftmost match of `key(.{n})`. */
  function Field(s: string, key: string, n: nat): (r: Option<string>)
    ensures r.Some? ==> |r.value| == n && '\n' !in r.value
    ensures r.Some? <==> exists i :: 0 <= i <= |s| && FieldAt(s, key, n, i)
  {
    match FieldFrom(s, key, n, 0)
    case None => None
    case Some(i) =>
      var v := s[i + |key|..i + |key| + n];
      assert forall k :: 0 <= k < n ==> v[k] == s[i + |key| + k];
      Some(v)
  }

  /** `m=(.{3})` */
  function Mood(t: string): Option<string>
  {
    Field(t, "m=", 3)
  }

  /** `t=(.{4})` */
  function TenseToken(t: string): Option<string>
  {
    Field(t, "t=", 4)
  }

  /** `n=(.{2})` */
  function Number(t: string): Option<string>
  {
    Field(t, "n=", 2)
  }

  predicate IsDigit(c: char)
  {
    '0' <= c <= '9'
  }

  /** `p=` at `i` followed by a digit: a match of `p=(\d{1,2})`. */
  predicate PersonAt(s: string, i: nat)
  {
    OccursAt(s, "p=", i) && i + 2 < |s| && IsDigit(s[i + 2])
  }

  function PersonFrom(s: string, i: nat): (r: Option<nat>)
    requires i <= |s|
    ensures r.Some? ==> i <= r.value && PersonAt(s, r.value)
    ensures r.Some? ==> forall j :: i <= j < r.value ==> !PersonAt(s, j)
    ensures r.None? ==> forall j :: i <= j <= |s| ==> !PersonAt(s, j)
    decreases |s| - i
  {
    if PersonAt(s, i) then Some(i)
    else if i == |s| then None
    else PersonFrom(s, i + 1)
  }

  /** The capture of `p=(\d{1,2})`: one digit, or two when a second digit
      follows (the quantifier is greedy). */
  function PersonDigits(t: string): (r: Option<string>)
    ensures r.Some? ==> 1 <= |r.value| <= 2 && forall k :: 0 <= k < |r.value| ==> IsDigit(r.value[k])
    ensures r.Some? <==> exists i :: 0 <= i <= |t| && PersonAt(t, i)
  {
    match PersonFrom(t, 0)
    case None => None
    case Some(i) =>
      if i + 3 < |t| && IsDigit(t[i + 3]) then Some(t[i + 2..i + 4]) else Some(t[i + 2..i + 3])
  }

  /** Where the capture of `\|([^\|]+)}}` ends for a match starting at `i`:
      the `|` at `i`, then the run of non-`|` characters backed off to its
      last `}}`, keeping at least one captured character. */
  function RefEnd(s: string, i: nat): (r: Option<nat>)
    requires i < |s|
    ensures r.Some? ==> s[i] == '|' && i + 2 <= r.value && r.value + 2 <= |s|
    ensures r.Some? ==> s[r.value] == '}' && s[r.value + 1] == '}'
    ensures r.Some? ==> forall k :: i < k < r.value + 2 ==> s[k] != '|'
  {
    if s[i] != '|' then None
    else LastPair(s, '}', i + 2, FirstFrom(s, '|', i + 1))
  }

  /** The leftmost match of `\|([^\|]+)}}` at or after `i`: its start and
      the end of its capture. */
  function RefFrom(s: string, i: nat): (r: Option<(nat, nat)>)
    requires i <= |s|
    ensures r.Some? ==> i <= r.value.0 < |s| && RefEnd(s, r.value.0) == Some(r.value.1)
    ensures r.Some? ==> forall j :: i <= j < r.value.0 ==> RefEnd(s, j).None?
    ensures r.None? ==> forall j :: i <= j < |s| ==> RefEnd(s, j).None?
    decreases |s| - i
  {
    if i == |s| then None
    else match RefEnd(s, i)
      case Some(e) => Some((i, e))
      case None => RefFrom(s, i + 1)
  }

  /** The infinitive a verb-form template refers to. */
  function InfRef(t: string): (r: Option<string>)
    ensures r.Some? ==> |r.value| > 0 && '|' !in r.value
  {
    match RefFrom(t, 0)
    case None => None
    case Some((i, e)) =>
      var ref := t[i + 1..e];
      assert forall k :: 0 <= k < |ref| ==> ref[k] == t[i + 1 + k];
      Some(ref)
  }

  /** The extracted reference really stands between a `|` and `}}` of the
      template. */
  lemma InfRefInTemplate(t: string) returns (i: nat)
    requires InfRef(t).Some?
    ensures i < |t| && OccursAt(t, "|" + InfRef(t).value + "}}", i)
  {
    var e;
    i, e := RefFrom(t, 0).value.0, RefFrom(t, 0).value.1;
    var ref := InfRef(t).value;
    assert t[i..e + 2] == [t[i]] + t[i + 1..e] + t[e..e + 2];
    assert t[e..e + 2] == "}}";
    assert OccursAt(t, "|" + ref + "}}", i);
  }

  /** Conversely, a template holding `|`, a non-empty text without `|`, and
      `}}` has a reference. */
  lemma InfRefFound(t: string, i: nat, w: string)
    requires OccursAt(t, "|" + w + "}}", i) && |w| > 0 && '|' !in w
    ensures InfRef(t).Some?
  {
    var m := "|" + w + "}}";
    assert forall k :: 0 <= k < |m| ==> t[i + k] == m[k];
    var run := FirstFrom(t, '|', i + 1);
    assert forall k :: i + 1 <= k < i + 1 + |w| + 2 ==> t[k] != '|' by {
      forall k | i + 1 <= k < i + 1 + |w| + 2 ensures t[k] != '|' {
        assert t[k] == m[k - i];
        if k < i + 1 + |w| {
          assert m[k - i] == w[k - i - 1];
        }
      }
    }
    assert i + 1 + |w| + 2 <= run;
    var j := i + 1 + |w|;
    assert t[j] == '}' && t[j + 1] == '}';
    assert LastPair(t, '}', i + 2, run).Some?;
    assert RefEnd(t, i).Some?;
  }

  /** The table column a tense token names: `pres` is `present`, `past` is
      `past`, anything else names no column. */
  function TenseName(token: string): (r: Option<string>)
    ensures r.Some? <==> token == "pres" || token == "past"
  {
    if token == "pres" then Some("present")
    else if token == "past" then Some("past")
    else None
  }

  /** The person a digit selects; any other character keeps the person of
      the previous digit. */
  function PersonName(c: char, previous: string): string
  {
    if c == '1' then "first"
    else if c == '2' then "second"
    else if c == '3' then "third"
    else previous
  }

  /** One singular verb-form insert per digit, carrying the person. */
  function PersonCalls(v: Verb, tense: string, digits: string, previous: string): (r: seq<Call>)
    decreases |digits|
  {
    if digits == [] then []
    else
      var person := PersonName(digits[0], previous);
      [InsertAsTense(v.text, v.tableId, tense, person, false)] + PersonCalls(v, tense, digits[1..], person)
  }

  /** The persons a verb form is filed under: the `p=` digits, or all three
      when the template names none. */
  function PersonsOf(t: string): (r: string)
    ensures 1 <= |r| <= 3
  {
    match PersonDigits(t)
    case None => "123"
    case Some(ds) => ds
  }

  /** The verb-form inserts `addToTable` makes for a verb whose table id is
      known. Insert errors are only logged, so the replies play no part. */
  function TableCalls(v: Verb): seq<Call>
  {
    if Mood(v.template).Some? && Mood(v.template).value != "ind" then []
    else match TenseToken(v.template)
      case None => []
      case Some(token) =>
        match TenseName(token)
        case None => []
        case Some(tense) =>
          match Number(v.template)
          case None => []
          case Some(n) =>
            if n == "pl" then [InsertAsTense(v.text, v.tableId, tense, "", true)]
            else PersonCalls(v, tense, PersonsOf(v.template), "")
  }

  /** What one `Conjugate` call leaves behind: the call log, the cache, the
      verb's table id, and the returned error. */
  datatype Outcome = Outcome(log: seq<Call>, cache: map<string, int>, tableId: int, err: Option<string>)

  /** `Conjugate` of `v` by a conjugator whose own language has id
      `languageId`, given the calls made so far and the cache. */
  function ConjugateSpec(respond: Responder, log: seq<Call>, cache: map<string, int>,
                         languageId: int, v: Verb): Outcome
  {
    if v.template == InfinitiveTemplate then
      var infinitive := InsertInfinitive(v.text, languageId);
      var id := respond(log, infinitive).id;
      var plural := InsertPlural(v.text, "present", id);
      Outcome(log + [infinitive, plural], cache[v.text := id], id,
              respond(log + [infinitive], plural).err)
    else
      match InfRef(v.template)
      case None => Outcome(log, cache, v.tableId, Some("Invalid template for verb " + v.text))
      case Some(ref) =>
        if ref in cache then
          Outcome(log + TableCalls(v.(tableId := cache[ref])), cache, cache[ref], None)
        else
          var infinitive := InsertInfinitive(ref, v.languageId);
          var id := respond(log, infinitive).id;
          Outcome(log + [infinitive] + TableCalls(v.(tableId := id)), cache[ref := id], id, None)
  }

  class Conjugator {
    /** The id of the conjugator's own language, Dutch. */
    const languageId: int
    /** Infinitives and the ids of their conjugation tables. */
    var cache: map<string, int>
    const store: Store

    constructor (languageId: int, store: Store)
      ensures this.languageId == languageId && this.store == store && cache == map[]
    {
      this.languageId := languageId;
      this.store := store;
      cache := map[];
    }

    /** Files `v` into its conjugation table; returns the table id the
        verb ends up with and the error, if any. */
    method Conjugate(v: Verb) returns (tableId: int, err: Option<string>)
      modifies this, store
      ensures Outcome(store.log, cache, tableId, err) ==
              ConjugateSpec(store.respond, old(store.log), old(cache), languageId, v)
    {
      if v.template == InfinitiveTemplate {
        var r := store.Send(InsertInfinitive(v.text, languageId));
        tableId := r.id;
        cache := cache[v.text := tableId];
        r := store.Send(InsertPlural(v.text, "present", tableId));
        err := r.err;
        return;
      }
      var ref := InfRef(v.template);
      if ref.None? {
        return v.tableId, Some("Invalid template for verb " + v.text);
      }
      if ref.value in cache {
        tableId := cache[ref.value];
      } else {
        var r := store.Send(InsertInfinitive(ref.value, v.languageId));
        tableId := r.id;
        cache := cache[ref.value := tableId];
      }
      AddToTable(v.(tableId := tableId));
      err := None;
    }

    /** Issues the verb-form inserts for `v`. */
    method AddToTable(v: Verb)
      modifies store
      ensures store.log == old(store.log) + TableCalls(v)
    {
      var mood := Mood(v.template);
      if mood.Some? && mood.value != "ind" {
        return;
      }
      var token := TenseToken(v.template);
      if token.None? {
        return;
      }
      var tense: string;
      if token.value == "pres" {
        tense := "present";
      } else if token.value == "past" {
        tense := "past";
      } else {
        return;
      }
      var number := Number(v.template);
      if number.None? {
        return;
      }
      if number.value == "pl" {
        var r := store.Send(InsertAsTense(v.text, v.tableId, tense, "", true));
      } else {
        FilePersons(v, tense, PersonsOf(v.template));
      }
    }

    /** The singular inserts, one per person digit, carrying the person
        from one digit to the next. */
    method FilePersons(v: Verb, tense: string, digits: string)
      modifies store
      ensures store.log == old(store.log) + PersonCalls(v, tense, digits, "")
    {
      var person := "";
      for k := 0 to |digits|
        invariant store.log + PersonCalls(v, tense, digits[k..], person) ==
                  old(store.log) + PersonCalls(v, tense, digits, "")
      {
        assert digits[k..] == [digits[k]] + digits[k + 1..];
        if digits[k] == '1' {
          person := "first";
        } else if digits[k] == '2' {
          person := "second";
        } else if digits[k] == '3' {
          person := "third";
        }
        var r := store.Send(InsertAsTense(v.text, v.tableId, tense, person, false));
      }
      assert digits[|digits|..] == [];
    }
  }

  // Properties of the conjugator.

  /** An infinitive opens a table: it is inserted as an infinitive of the
      conjugator's language, cached under its own text, and inserted again
      as the present plural of that same table; the error of that last
      insert is the result. */
  lemma InfinitiveOpensTable(respond: Responder, log: seq<Call>, cache: map<string, int>,
                             languageId: int, v: Verb)
    requires v.template == InfinitiveTemplate
    ensures var o := ConjugateSpec(respond, log, cache, languageId, v);
            var id := respond(log, InsertInfinitive(v.text, languageId)).id;
            |o.log| == |log| + 2 && o.log[..|log|] == log &&
            o.log[|log|] == InsertInfinitive(v.text, languageId) &&
            o.log[|log| + 1] == InsertPlural(v.text, "present", id) &&
            o.tableId == id && v.text in o.cache && o.cache[v.text] == id &&
            o.err == respond(o.log[..|log| + 1], o.log[|log| + 1]).err
  {
    var o := ConjugateSpec(respond, log, cache, languageId, v);
    assert o.log[..|log| + 1] == log + [InsertInfinitive(v.text, languageId)];
  }

  /** A verb-form template without an infinitive reference is rejected
      with an error and leaves log and cache as they were. */
  lemma InvalidTemplateRejected(respond: Responder, log: seq<Call>, cache: map<string, int>,
                                languageId: int, v: Verb)
    requires v.template != InfinitiveTemplate && InfRef(v.template).None?
    ensures var o := ConjugateSpec(respond, log, cache, languageId, v);
            o.log == log && o.cache == cache && o.err == Some("Invalid template for verb " + v.text)
  {
  }

  /** A cached infinitive is reused: no infinitive is inserted, the table
      id is the cached one and the cache does not change. */
  lemma CacheHit(respond: Responder, log: seq<Call>, cache: map<string, int>,
                 languageId: int, v: Verb)
    requires v.template != InfinitiveTemplate && InfRef(v.template).Some?
    requires InfRef(v.template).value in cache
    ensures var o := ConjugateSpec(respond, log, cache, languageId, v);
            o.cache == cache && o.tableId == cache[InfRef(v.template).value] &&
            o.log[..|log|] == log &&
            forall k :: |log| <= k < |o.log| ==> o.log[k].InsertAsTense? && o.log[k].tableId == o.tableId
  {
    var ref := InfRef(v.template).value;
    var w := v.(tableId := cache[ref]);
    TableCallsShape(w);
  }

  /** An infinitive not yet cached is inserted with the verb's language
      id, and its new table id is cached; every later call of this
      conjugation files a form into that table. */
  lemma CacheMiss(respond: Responder, log: seq<Call>, cache: map<string, int>,
                  languageId: int, v: Verb)
    requires v.template != InfinitiveTemplate && InfRef(v.template).Some?
    requires InfRef(v.template).value !in cache
    ensures var o := ConjugateSpec(respond, log, cache, languageId, v);
            var ref := InfRef(v.template).value;
            var id := respond(log, InsertInfinitive(ref, v.languageId)).id;
            |o.log| > |log| && o.log[..|log|] == log &&
            o.log[|log|] == InsertInfinitive(ref, v.languageId) &&
            o.cache == cache[ref := id] && o.tableId == id &&
            forall k :: |log| < k < |o.log| ==> o.log[k].InsertAsTense? && o.log[k].tableId == id
  {
    var ref := InfRef(v.template).value;
    var id := respond(log, InsertInfinitive(ref, v.languageId)).id;
    TableCallsShape(v.(tableId := id));
  }

  /** After any conjugation that gets past the reference check, the
      infinitive it names is cached, and the result is no error whatever the
      storage answers to the verb-form inserts. */
  lemma VerbFormCachedAndSucceeds(respond: Responder, log: seq<Call>, cache: map<string, int>,
                                  languageId: int, v: Verb)
    requires v.template != InfinitiveTemplate && InfRef(v.template).Some?
    ensures var o := ConjugateSpec(respond, log, cache, languageId, v);
            InfRef(v.template).value in o.cache && o.cache[InfRef(v.template).value] == o.tableId &&
            o.err.None? && (forall r :: r in cache && r != InfRef(v.template).value ==> r in o.cache && o.cache[r] == cache[r])
  {
  }

  /** Every call `TableCalls` makes is a verb-form insert into the verb's
      table. */
  lemma TableCallsShape(v: Verb)
    ensures forall k :: 0 <= k < |TableCalls(v)| ==>
              TableCalls(v)[k].InsertAsTense? && TableCalls(v)[k].tableId == v.tableId &&
              TableCalls(v)[k].form == v.text
  {
    var t := v.template;
    if !(Mood(t).Some? && Mood(t).value != "ind") && TenseToken(t).Some? &&
       TenseName(TenseToken(t).value).Some? && Number(t).Some? && Number(t).value != "pl" {
      PersonCallsShape(v, TenseName(TenseToken(t).value).value, PersonsOf(t), "");
    }
  }

  lemma {:induction false} PersonCallsShape(v: Verb, tense: string, digits: string, previous: string)
    ensures |PersonCalls(v, tense, digits, previous)| == |digits|
    ensures forall k :: 0 <= k < |digits| ==>
              var c := PersonCalls(v, tense, digits, previous)[k];
              c.InsertAsTense? && c.tableId == v.tableId && c.form == v.text && c.tense == tense && !c.plural
    decreases |digits|
  {
    if digits != [] {
      PersonCallsShape(v, tense, digits[1..], PersonName(digits[0], previous));
    }
  }

  /** A mood other than the indicative files nothing; the conjugation
      still succeeds. */
  lemma NonIndicativeFilesNothing(respond: Responder, log: seq<Call>, cache: map<string, int>,
                                  languageId: int, v: Verb)
    requires v.template != InfinitiveTemplate && InfRef(v.template).Some?
    requires Mood(v.template).Some? && Mood(v.template).value != "ind"
    ensures var o := ConjugateSpec(respond, log, cache, languageId, v);
            o.err.None? && forall k :: |log| <= k < |o.log| ==> !o.log[k].InsertAsTense?
  {
  }

  /** Verb forms are filed only under the tense tokens `pres` and `past`,
      as the columns `present` and `past`; a missing tense, another tense
      token or a missing number files nothing. */
  lemma TenseAndNumberGate(v: Verb)
    ensures TenseToken(v.template).None? ==> TableCalls(v) == []
    ensures TenseToken(v.template).Some? && TenseName(TenseToken(v.template).value).None? ==> TableCalls(v) == []
    ensures Number(v.template).None? ==> TableCalls(v) == []
    ensures forall k :: 0 <= k < |TableCalls(v)| ==>
              TableCalls(v)[k].InsertAsTense? &&
              ((TenseToken(v.template) == Some("pres") && TableCalls(v)[k].tense == "present") ||
               (TenseToken(v.template) == Some("past") && TableCalls(v)[k].tense == "past"))
  {
    var t := v.template;
    if !(Mood(t).Some? && Mood(t).value != "ind") && TenseToken(t).Some? &&
       TenseName(TenseToken(t).value).Some? && Number(t).Some? && Number(t).value != "pl" {
      PersonCallsShape(v, TenseName(TenseToken(t).value).value, PersonsOf(t), "");
    }
  }

  /** The number `pl` files exactly one plural insert, with no person. */
  lemma PluralFilesOnce(v: Verb)
    requires !(Mood(v.template).Some? && Mood(v.template).value != "ind")
    requires TenseToken(v.template).Some? && TenseName(TenseToken(v.template).value).Some?
    requires Number(v.template) == Some("pl")
    ensures TableCalls(v) == [InsertAsTense(v.text, v.tableId, TenseName(TenseToken(v.template).value).value, "", true)]
  {
  }

  /** The `k`-th singular insert carries the person its digit selects,
      given the person of the insert before it (or `previous` for the
      first). */
  lemma {:induction false} PersonCallsCarry(v: Verb, tense: string, digits: string, previous: string)
    ensures |PersonCalls(v, tense, digits, previous)| == |digits|
    ensures |digits| > 0 ==>
              PersonCalls(v, tense, digits, previous)[0].InsertAsTense? &&
              PersonCalls(v, tense, digits, previous)[0].person == PersonName(digits[0], previous)
    ensures forall k :: 0 < k < |digits| ==>
              var calls := PersonCalls(v, tense, digits, previous);
              calls[k].InsertAsTense? && calls[k - 1].InsertAsTense? &&
              calls[k].person == PersonName(digits[k], calls[k - 1].person)
    decreases |digits|
  {
    PersonCallsShape(v, tense, digits, previous);
    if digits != [] {
      var p := PersonName(digits[0], previous);
      var rest := PersonCalls(v, tense, digits[1..], p);
      PersonCallsCarry(v, tense, digits[1..], p);
      var calls := PersonCalls(v, tense, digits, previous);
      assert forall k :: 0 < k < |digits| ==> calls[k] == rest[k - 1];
    }
  }

  /** A singular (or other non-plural) number files one insert per person
      digit, each with the person the digit selects, and a digit outside
      1-3 repeats the person of the insert before it, which is empty for
      the first. */
  lemma SingularFilesPerDigit(v: Verb)
    requires !(Mood(v.template).Some? && Mood(v.template).value != "ind")
    requires TenseToken(v.template).Some? && TenseName(TenseToken(v.template).value).Some?
    requires Number(v.template).Some? && Number(v.template).value != "pl"
    ensures var ds := PersonsOf(v.template);
            var calls := TableCalls(v);
            |calls| == |ds| &&
            (forall k :: 0 <= k < |ds| ==> calls[k].InsertAsTense? && !calls[k].plural) &&
            (forall k :: 0 <= k < |ds| && ds[k] == '1' ==> calls[k].person == "first") &&
            (forall k :: 0 <= k < |ds| && ds[k] == '2' ==> calls[k].person == "second") &&
            (forall k :: 0 <= k < |ds| && ds[k] == '3' ==> calls[k].person == "third") &&
            (forall k :: 0 < k < |ds| && ds[k] !in "123" ==> calls[k].person == calls[k - 1].person) &&
            (ds[0] !in "123" ==> calls[0].person == "")
  {
    var ds := PersonsOf(v.template);
    var tense := TenseName(TenseToken(v.template).value).value;
    assert TableCalls(v) == PersonCalls(v, tense, ds, "");
    PersonCallsShape(v, tense, ds, "");
    PersonCallsCarry(v, tense, ds, "");
  }

  /** Without a `p=` field a singular form is filed under all three
      persons, in the order first, second, third. */
  lemma AllPersonsByDefault(v: Verb)
    requires !(Mood(v.template).Some? && Mood(v.template).value != "ind")
    requires TenseToken(v.template).Some? && TenseName(TenseToken(v.template).value).Some?
    requires Number(v.template).Some? && Number(v.template).value != "pl"
    requires PersonDigits(v.template).None?
    ensures var tense := TenseName(TenseToken(v.template).value).value;
            TableCalls(v) == [InsertAsTense(v.text, v.tableId, tense, "first", false),
                              InsertAsTense(v.text, v.tableId, tense, "second", false),
                              InsertAsTense(v.text, v.tableId, tense, "third", false)]
  {
    var tense := TenseName(TenseToken(v.template).value).value;
    assert "123"[1..] == "23" && "23"[1..] == "3" && "3"[1..] == "";
    assert PersonCalls(v, tense, "123", "") ==
           [InsertAsTense(v.text, v.tableId, tense, "first", false)] + PersonCalls(v, tense, "23", "first");
  }
}
