/** The conjugation table the API serves: the forms of a verb in one tense,
    sorted into first, second and third person singular and plural, and the
    fold that builds the present and past tables from the database rows of
    a verb's forms. */
module ApiModel {
  import opened Text

  /** Grammatical person: one bit per person, so that a form shared by
      several persons carries their union. */
  const First := 2
  const Second := 4
  const Third := 8

  /** Grammatical number. */
  const Singular := 1
  const Plural := 2

  /** Bit `mask` (a power of two) is set in `person`, read as a two's
      complement integer. */
  predicate Has(person: int, mask: int)
    requires mask > 0
  {
    (person / mask) % 2 == 1
  }

  /** The four lists of a tense. */
  datatype Forms = Forms(first: seq<string>, second: seq<string>, third: seq<string>, plural: seq<string>)

  const NoForms := Forms([], [], [], [])

  /** One of the four lists. */
  datatype Slot = FirstSlot | SecondSlot | ThirdSlot | PluralSlot

  function Get(f: Forms, s: Slot): seq<string>
  {
    match s
    case FirstSlot => f.first
    case SecondSlot => f.second
    case ThirdSlot => f.third
    case PluralSlot => f.plural
  }

  /** Where a form goes: a plural form to the plural list whatever its
      person, a singular form to the list of each person bit it carries, a
      form of any other number nowhere. */
  predicate Goes(number: int, person: int, s: Slot)
  {
    match s
    case PluralSlot => number == Plural
    case FirstSlot => number == Singular && Has(person, First)
    case SecondSlot => number == Singular && Has(person, Second)
    case ThirdSlot => number == Singular && Has(person, Third)
  }

  /** `Consume` on values. */
  function Place(f: Forms, word: string, person: int, number: int): Forms
  {
    if number == Plural then f.(plural := f.plural + [word])
    else if number == Singular then
      var f1 := if Has(person, First) then f.(first := f.first + [word]) else f;
      var f2 := if Has(person, Second) then f1.(second := f1.second + [word]) else f1;
      if Has(person, Third) then f2.(third := f2.third + [word]) else f2
    else f
  }

  /** Each list gains the word at its end exactly when the form goes
      there, and is otherwise unchanged. */
  lemma PlaceRoutes(f: Forms, word: string, person: int, number: int, s: Slot)
    ensures Get(Place(f, word, person, number), s) == Get(f, s) + (if Goes(number, person, s) then [word] else [])
  {
  }

  /** The person constants are distinct single bits: a singular form of
      any union of them goes to the list of each person in the union and to
      no other, and the plural list is left alone. */
  lemma PersonUnion(f: Forms, word: string, first: bool, second: bool, third: bool)
    ensures var person := (if first then First else 0) + (if second then Second else 0) +
                          (if third then Third else 0);
            Place(f, word, person, Singular) ==
              Forms(f.first + (if first then [word] else []),
                    f.second + (if second then [word] else []),
                    f.third + (if third then [word] else []),
                    f.plural)
  {
  }

  class TenseInflection {
    var first: seq<string>
    var second: seq<string>
    var third: seq<string>
    var plural: seq<string>

    function Contents(): Forms
      reads this
    {
      Forms(first, second, third, plural)
    }

    /** `NewTenseInflection`: four empty lists. */
    constructor ()
      ensures Contents() == NoForms
    {
      first, second, third, plural := [], [], [], [];
    }

    /** `Consume`: places the word in the lists its number and person
        select. */
    method Consume(word: string, person: int, number: int)
      modifies this
      ensures Contents() == Place(old(Contents()), word, person, number)
    {
      if number == Plural {
        plural := plural + [word];
      } else if number == Singular {
        if Has(person, First) {
          first := first + [word];
        }
        if Has(person, Second) {
          second := second + [word];
        }
        if Has(person, Third) {
          third := third + [word];
        }
      }
    }
  }

  /** A row of the verb-forms query: a form, its number, the id of its
      tense (1 for the present, 2 for the past) and its person. */
  datatype Row = Row(form: string, number: int, tense: int, person: int)

  /** The source indexes its two tables by `tense - 1`; any other tense id
      panics. */
  predicate KnownTenses(rows: seq<Row>)
  {
    forall k :: 0 <= k < |rows| ==> rows[k].tense == 1 || rows[k].tense == 2
  }

  /** The present and past tables. */
  datatype Tenses = Tenses(present: Forms, past: Forms)

  /** The fold of `GetConjugationTable` over the rows read so far. */
  function FoldTenses(rows: seq<Row>): Tenses
  {
    if rows == [] then Tenses(NoForms, NoForms)
    else
      var t := FoldTenses(rows[..|rows| - 1]);
      var r := rows[|rows| - 1];
      if r.tense == 1 then t.(present := Place(t.present, r.form, r.person, r.number))
      else if r.tense == 2 then t.(past := Place(t.past, r.form, r.person, r.number))
      else t
  }

  /** Consuming rows one after the other. */
  function PlaceAll(f: Forms, rows: seq<Row>): Forms
  {
    if rows == [] then f
    else
      var r := rows[|rows| - 1];
      Place(PlaceAll(f, rows[..|rows| - 1]), r.form, r.person, r.number)
  }

  /** The rows of one tense, in order. */
  function OfTense(rows: seq<Row>, tense: int): seq<Row>
  {
    if rows == [] then []
    else OfTense(rows[..|rows| - 1], tense) + (if rows[|rows| - 1].tense == tense then [rows[|rows| - 1]] else [])
  }

  /** The forms of the rows that go to list `s`, in row order. */
  function FormsFor(rows: seq<Row>, s: Slot): seq<string>
  {
    if rows == [] then []
    else
      var r := rows[|rows| - 1];
      FormsFor(rows[..|rows| - 1], s) + (if Goes(r.number, r.person, s) then [r.form] else [])
  }

  lemma {:induction false} PlaceAllAppend(f: Forms, rows: seq<Row>, r: Row)
    ensures PlaceAll(f, rows + [r]) == Place(PlaceAll(f, rows), r.form, r.person, r.number)
  {
    assert (rows + [r])[..|rows|] == rows;
  }

  /** The rows of tense 1 make the present table and the rows of tense 2
      the past table, each folded on its own. */
  lemma {:induction false} FoldSeparatesTenses(rows: seq<Row>)
    ensures FoldTenses(rows) == Tenses(PlaceAll(NoForms, OfTense(rows, 1)), PlaceAll(NoForms, OfTense(rows, 2)))
  {
    if rows != [] {
      var init, r := rows[..|rows| - 1], rows[|rows| - 1];
      FoldSeparatesTenses(init);
      if r.tense == 1 {
        PlaceAllAppend(NoForms, OfTense(init, 1), r);
        assert OfTense(rows, 1) == OfTense(init, 1) + [r];
        assert OfTense(rows, 2) == OfTense(init, 2) + [] == OfTense(init, 2);
      } else if r.tense == 2 {
        PlaceAllAppend(NoForms, OfTense(init, 2), r);
        assert OfTense(rows, 2) == OfTense(init, 2) + [r];
        assert OfTense(rows, 1) == OfTense(init, 1) + [] == OfTense(init, 1);
      } else {
        assert OfTense(rows, 1) == OfTense(init, 1) + [] == OfTense(init, 1);
        assert OfTense(rows, 2) == OfTense(init, 2) + [] == OfTense(init, 2);
      }
    }
  }

  /** Each list of a fold holds what it held before, then the forms of the
      rows that go there, in row order: entries are only ever added at the
      end. */
  lemma {:induction false} PlaceAllLists(f: Forms, rows: seq<Row>, s: Slot)
    ensures Get(PlaceAll(f, rows), s) == Get(f, s) + FormsFor(rows, s)
  {
    if rows != [] {
      var init, r := rows[..|rows| - 1], rows[|rows| - 1];
      PlaceAllLists(f, init, s);
      PlaceRoutes(PlaceAll(f, init), r.form, r.person, r.number, s);
    }
  }

  /** The table for an infinitive. */
  class ConjugationTable {
    const infinitive: string
    const present: TenseInflection
    const past: TenseInflection

    constructor (infinitive: string, present: TenseInflection, past: TenseInflection)
      ensures this.infinitive == infinitive && this.present == present && this.past == past
    {
      this.infinitive := infinitive;
      this.present := present;
      this.past := past;
    }
  }

  /** What `GetInfinitive` answered: the infinitive and its id, no row, or
      another error. */
  datatype Infinitive = Found(word: string, id: int) | NoRows | Failed(err: string)

  /** `GetConjugationTable`: the answer of the infinitive lookup and the
      rows of the verb-forms query are inputs. */
  method GetConjugationTable(word: string, inf: Infinitive, rows: seq<Row>) returns (table: ConjugationTable?, err: Option<string>)
    requires inf.Found? ==> KnownTenses(rows)
    ensures inf.NoRows? ==> table == null && err == Some("word " + word + " does not exist")
    ensures inf.Failed? ==> table == null && err == Some(inf.err)
    ensures inf.Found? ==> err.None? && table != null && fresh(table) && fresh(table.present) && fresh(table.past) &&
                           table.present != table.past && table.infinitive == inf.word &&
                           Tenses(table.present.Contents(), table.past.Contents()) == FoldTenses(rows)
  {
    if inf.NoRows? {
      return null, Some("word " + word + " does not exist");
    } else if inf.Failed? {
      return null, Some(inf.err);
    }
    var present := new TenseInflection();
    var past := new TenseInflection();
    var i := 0;
    while i < |rows|
      invariant i <= |rows|
      invariant Tenses(present.Contents(), past.Contents()) == FoldTenses(rows[..i])
    {
      var r := rows[i];
      assert rows[..i + 1][..i] == rows[..i];
      if r.tense == 1 {
        present.Consume(r.form, r.person, r.number);
      } else {
        past.Consume(r.form, r.person, r.number);
      }
      i := i + 1;
    }
    assert rows[..i] == rows;
    table := new ConjugationTable(inf.word, present, past);
    err := None;
  }
}
