/** The import of the IANA Language Subtag Registry into the languages
    table. The registry (section 3.1 of RFC 5646) is a sequence of records
    separated by lines starting with `%%`; each record is a run of
    `Field-Name: value` lines. The import keeps a record's second and third
    lines, the subtag and the description, and inserts one language per
    description, the first record with it winning. The table is a sequence
    of rows; the file is a sequence of lines, each with its line break. */
module ImportLanguages {
  import opened Text
  import opened Distinct

  /** A row of the languages table. */
  datatype Language = Language(description: string, tag: string)

  function Description(l: Language): string
  {
    l.description
  }

  /** The record separator. */
  predicate Delimiter(line: string)
  {
    |line| >= 2 && line[..2] == "%%"
  }

  /** A group of `itertools.groupby`: a run of lines with the same key. */
  datatype Group = Group(key: bool, lines: seq<string>)

  /** The end of the run of lines with key `key` that starts at `i`. */
  function RunFrom(lines: seq<string>, key: bool, i: nat): (r: nat)
    requires i <= |lines|
    ensures i <= r <= |lines|
    ensures forall j :: i <= j < r ==> Delimiter(lines[j]) == key
    ensures r < |lines| ==> Delimiter(lines[r]) != key
    decreases |lines| - i
  {
    if i == |lines| || Delimiter(lines[i]) != key then i else RunFrom(lines, key, i + 1)
  }

  /** `groupby(lines, Delimiter)`: the maximal runs of lines that are all
      separators or all not. */
  function GroupBy(lines: seq<string>): seq<Group>
    decreases |lines|
  {
    if lines == [] then []
    else
      var key := Delimiter(lines[0]);
      var n := RunFrom(lines, key, 0);
      [Group(key, lines[..n])] + GroupBy(lines[n..])
  }

  function Flatten(gs: seq<Group>): seq<string>
  {
    if gs == [] then [] else gs[0].lines + Flatten(gs[1..])
  }

  /** The groups hold the lines, all of them, in order. */
  lemma {:induction false} GroupByFlatten(lines: seq<string>)
    ensures Flatten(GroupBy(lines)) == lines
    decreases |lines|
  {
    if lines != [] {
      var n := RunFrom(lines, Delimiter(lines[0]), 0);
      var gs := GroupBy(lines);
      GroupByFlatten(lines[n..]);
      assert gs[1..] == GroupBy(lines[n..]);
      assert lines[..n] + lines[n..] == lines;
    }
  }

  /** Every group is non-empty and its key is that of each of its lines. */
  lemma {:induction false} GroupByKeys(lines: seq<string>)
    ensures forall k :: 0 <= k < |GroupBy(lines)| ==> GroupBy(lines)[k].lines != []
    ensures forall k, q :: 0 <= k < |GroupBy(lines)| && 0 <= q < |GroupBy(lines)[k].lines| ==>
              Delimiter(GroupBy(lines)[k].lines[q]) == GroupBy(lines)[k].key
    decreases |lines|
  {
    if lines != [] {
      var n := RunFrom(lines, Delimiter(lines[0]), 0);
      var gs, rest := GroupBy(lines), GroupBy(lines[n..]);
      GroupByKeys(lines[n..]);
      assert forall k :: 1 <= k < |gs| ==> gs[k] == rest[k - 1];
      assert forall q :: 0 <= q < n ==> gs[0].lines[q] == lines[q];
    }
  }

  /** Neighbouring groups have different keys: the runs are maximal. */
  lemma {:induction false} GroupByMaximal(lines: seq<string>)
    ensures forall k :: 0 <= k < |GroupBy(lines)| - 1 ==> GroupBy(lines)[k].key != GroupBy(lines)[k + 1].key
    decreases |lines|
  {
    if lines != [] {
      var n := RunFrom(lines, Delimiter(lines[0]), 0);
      var gs, rest := GroupBy(lines), GroupBy(lines[n..]);
      GroupByMaximal(lines[n..]);
      assert forall k :: 1 <= k < |gs| ==> gs[k] == rest[k - 1];
      if n < |lines| {
        assert lines[n..][0] == lines[n];
      }
    }
  }

  /** `line.split(": ")[1]`: the text between the first `": "` and the
      next one, or the end; none when the line holds no `": "` (the
      source's `IndexError`). */
  function SecondField(line: string): (r: Option<string>)
    ensures r.None? <==> !Contains(line, ": ")
  {
    match IndexFrom(line, ": ", 0)
    case None => None
    case Some(i) =>
      var rest := line[i + 2..];
      match IndexFrom(rest, ": ", 0)
      case None => Some(rest)
      case Some(j) => Some(rest[..j])
  }

  /** `s[:-1]`: all but the last character (the line break). */
  function DropLast(s: string): string
  {
    if s == [] then [] else s[..|s| - 1]
  }

  lemma DropBreak(s: string)
    ensures DropLast(s + "\n") == s
  {
    assert (s + "\n")[..|s|] == s;
  }

  /** The language of a record: the subtag from its second line and the
      lower-cased description from its third; none when the record is
      shorter or either line has no `": "`. */
  function Extract(record: seq<string>): Option<Language>
  {
    if |record| < 3 then None
    else
      match (SecondField(record[1]), SecondField(record[2]))
      case (Some(tag), Some(description)) => Some(Language(ToLower(DropLast(description)), DropLast(tag)))
      case _ => None
  }

  /** A field line whose name and value hold no colon splits into them:
      `head` is the name with its `": "`. */
  lemma {:induction false} FieldLine(head: string, value: string)
    requires |head| >= 2 && head[|head| - 2..] == ": "
    requires forall q :: 0 <= q < |head| - 2 ==> head[q] != ':'
    requires ':' !in value
    ensures SecondField(head + value + "\n") == Some(value + "\n")
  {
    var line := head + value + "\n";
    var n := |head| - 2;
    assert line[n..n + 2] == ": ";
    assert OccursAt(line, ": ", n);
    forall q | 0 <= q < n
      ensures !OccursAt(line, ": ", q)
    {
      assert line[q] == head[q];
    }
    var rest := line[n + 2..];
    assert rest == value + "\n";
    forall q | 0 <= q <= |rest|
      ensures !OccursAt(rest, ": ", q)
    {
      if q < |value| {
        assert rest[q] == value[q];
      } else if q == |value| {
        assert rest[q] == '\n';
      }
    }
  }

  /** A record whose second and third lines carry the fields `<tag>` and
      `<text>` (each with its line break, as `FieldLine` reads them) yields
      that subtag and the lower-cased text. */
  lemma ExtractRecord(record: seq<string>, tag: string, description: string)
    requires |record| >= 3
    requires SecondField(record[1]) == Some(tag + "\n") && SecondField(record[2]) == Some(description + "\n")
    ensures Extract(record) == Some(Language(ToLower(description), tag))
  {
    DropBreak(tag);
    DropBreak(description);
  }

  /** A description is already stored (the `SELECT exists` query). */
  predicate Stored(rows: seq<Language>, description: string)
  {
    exists k :: 0 <= k < |rows| && rows[k].description == description
  }

  /** The loop over the groups from `gs[0]` on, with `rows` inserted so
      far; none when a record cannot be read (the source raises, and its
      transaction is never committed). */
  function Load(rows: seq<Language>, gs: seq<Group>): Option<seq<Language>>
    decreases |gs|
  {
    if gs == [] then Some(rows)
    else if gs[0].key then Load(rows, gs[1..])
    else
      match Extract(gs[0].lines)
      case None => None
      case Some(l) => Load(if Stored(rows, l.description) then rows else rows + [l], gs[1..])
  }

  /** The languages of the records, in file order; none when one cannot
      be read. */
  function Languages(gs: seq<Group>): Option<seq<Language>>
    decreases |gs|
  {
    if gs == [] then Some([])
    else if gs[0].key then Languages(gs[1..])
    else
      match (Extract(gs[0].lines), Languages(gs[1..]))
      case (Some(l), Some(ls)) => Some([l] + ls)
      case _ => None
  }

  /** The registry after its first two lines. */
  function Body(lines: seq<string>): seq<string>
  {
    if |lines| >= 2 then lines[2..] else []
  }

  /** `import_languages` on a table holding `rowCount` rows: the rows it
      inserts, or none when it fails. */
  function Import(rowCount: int, lines: seq<string>): Option<seq<Language>>
  {
    if rowCount != 0 then Some([]) else Load([], GroupBy(Body(lines)))
  }

  lemma StoredKeys(rows: seq<Language>, description: string)
    ensures Stored(rows, description) <==> description in KeySet(rows, Description)
  {
    if Stored(rows, description) {
      var k :| 0 <= k < |rows| && rows[k].description == description;
      assert Description(rows[k]) in KeySet(rows, Description);
    }
    if description in KeySet(rows, Description) {
      var x :| x in rows && Description(x) == description;
      var k :| 0 <= k < |rows| && rows[k] == x;
    }
  }

  lemma KeySetAppend(rows: seq<Language>, l: Language)
    ensures KeySet(rows + [l], Description) == KeySet(rows, Description) + {l.description}
  {
    var before, after := KeySet(rows, Description), KeySet(rows + [l], Description);
    forall d | d in after
      ensures d in before + {l.description}
    {
      var x :| x in rows + [l] && Description(x) == d;
      if x != l {
        assert x in rows;
      }
    }
    forall d | d in before + {l.description}
      ensures d in after
    {
      if d == l.description {
        assert l in rows + [l];
      } else {
        var x :| x in rows && Description(x) == d;
        assert x in rows + [l];
      }
    }
  }

  /** The loop is an order-preserving removal of duplicate descriptions
      from the languages of the records, the rows already inserted
      counting as seen. */
  lemma {:induction false} LoadDistinct(rows: seq<Language>, gs: seq<Group>)
    ensures Load(rows, gs).None? <==> Languages(gs).None?
    ensures Load(rows, gs).Some? ==>
              Load(rows, gs).value == rows + DistinctBy(Languages(gs).value, Description, KeySet(rows, Description))
    decreases |gs|
  {
    if gs == [] {
      assert rows + [] == rows;
    } else if gs[0].key {
      LoadDistinct(rows, gs[1..]);
    } else if Extract(gs[0].lines).Some? {
      var l := Extract(gs[0].lines).value;
      var seen := KeySet(rows, Description);
      StoredKeys(rows, l.description);
      if Stored(rows, l.description) {
        LoadDistinct(rows, gs[1..]);
      } else {
        LoadDistinct(rows + [l], gs[1..]);
        KeySetAppend(rows, l);
      }
      if Languages(gs[1..]).Some? {
        var ls := Languages(gs[1..]).value;
        assert ([l] + ls)[1..] == ls;
      }
    }
  }

  /** With an empty table and a readable registry, the import inserts the
      first language of each description once, and no other row: the
      descriptions are distinct, each row is the first record with its
      description, the rows follow the file order, and every description
      of the registry is inserted. */
  lemma ImportFirstWins(lines: seq<string>, rows: seq<Language>) returns (ls: seq<Language>)
    requires Import(0, lines) == Some(rows)
    ensures Languages(GroupBy(Body(lines))) == Some(ls)
    ensures forall i, j :: 0 <= i < j < |rows| ==> rows[i].description != rows[j].description
    ensures forall i :: 0 <= i < |rows| ==>
              FirstIndex(ls, Description, rows[i].description) < |ls| &&
              rows[i] == ls[FirstIndex(ls, Description, rows[i].description)]
    ensures forall i, j :: 0 <= i < j < |rows| ==>
              FirstIndex(ls, Description, rows[i].description) < FirstIndex(ls, Description, rows[j].description)
    ensures KeySet(rows, Description) == KeySet(ls, Description)
  {
    var gs := GroupBy(Body(lines));
    LoadDistinct([], gs);
    ls := Languages(gs).value;
    assert KeySet([], Description) == {};
    assert rows == DistinctBy(ls, Description, {});
    DistinctByKeys(ls, Description, {}, rows);
    DistinctByFirst(ls, Description, {}, rows);
    DistinctByOrder(ls, Description, {}, rows);
    DistinctByComplete(ls, Description, {}, rows);
  }

  /** `import_languages`: the rows inserted into the table and whether the
      import failed. A table that already holds rows gets none; a record
      that cannot be read fails the import, and nothing it inserted is
      committed. */
  method ImportLanguagesInto(rowCount: int, lines: seq<string>) returns (rows: seq<Language>, failed: bool)
    ensures failed <==> Import(rowCount, lines).None?
    ensures !failed ==> rows == Import(rowCount, lines).value
    ensures failed ==> rows == []
    ensures rowCount != 0 ==> rows == [] && !failed
  {
    rows := [];
    if rowCount != 0 {
      return [], false;
    }
    var groups := GroupBy(Body(lines));
    var i := 0;
    while i < |groups|
      invariant i <= |groups|
      invariant Load(rows, groups[i..]) == Load([], groups)
    {
      assert groups[i..][1..] == groups[i + 1..];
      var g := groups[i];
      if !g.key {
        var language := Extract(g.lines);
        if language.None? {
          return [], true;
        }
        var l := language.value;
        if !Stored(rows, l.description) {
          rows := rows + [l];
        }
      }
      i := i + 1;
    }
    assert groups[i..] == [];
    failed := false;
  }
}
