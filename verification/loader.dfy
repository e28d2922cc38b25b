/** The row fold of `loadStudentsFromCSV`: parsed CSV rows to a table of
    students keyed by normalised roll number.

    The file system, the stream and the CSV parser are not modelled: the
    loader receives either the rows the parser produced or one of the two
    failure outcomes. `parseInt` and `parseFloat` are parameters. */
module Loader {
  import opened Text
  import opened Records

  /** The numeric parsers applied to the `marks` and `credits` cells. */
  datatype Parsers = Parsers(marks: string -> int, credits: string -> real)

  /** `row[key] || fallback`: a missing or empty cell yields the fallback. */
  function Cell(row: Row, key: string, fallback: string): string
  {
    if key in row && row[key] != "" then row[key] else fallback
  }

  /** The key a row is filed under: its roll, upper-cased, then trimmed. */
  function RollOf(row: Row): string
  {
    Trim(Upper(Cell(row, "roll", "")))
  }

  /** The subject a row contributes. A missing or empty `marks` or `credits`
      cell is parsed as "0". */
  function SubjectOf(row: Row, p: Parsers): Subject
  {
    Subject(Cell(row, "subject", ""), p.marks(Cell(row, "marks", "0")), p.credits(Cell(row, "credits", "0")))
  }

  /** The record created for the first row carrying a roll, before its subject
      is appended. */
  function Seed(row: Row, roll: string): Student
  {
    Student(Cell(row, "name", ""), roll, Cell(row, "dept", ""), Cell(row, "semester", ""), [])
  }

  /** The `data` handler for one row. A row with an empty key changes nothing;
      otherwise the row's roll gets a record (seeded from this row when it is
      new) with this row's subject appended, and every other entry is kept. */
  function Step(table: Table, row: Row, p: Parsers): (t: Table)
    ensures RollOf(row) == "" ==> t == table
    ensures RollOf(row) != "" ==> t.Keys == table.Keys + {RollOf(row)}
    ensures forall k :: k in table && k != RollOf(row) ==> t[k] == table[k]
    ensures RollOf(row) in table && RollOf(row) != "" ==>
      t[RollOf(row)] == table[RollOf(row)].(subjects := table[RollOf(row)].subjects + [SubjectOf(row, p)])
    ensures RollOf(row) !in table && RollOf(row) != "" ==>
      t[RollOf(row)] == Seed(row, RollOf(row)).(subjects := [SubjectOf(row, p)])
  {
    var roll := RollOf(row);
    if roll == "" then table
    else
      var base := if roll in table then table[roll] else Seed(row, roll);
      table[roll := base.(subjects := base.subjects + [SubjectOf(row, p)])]
  }

  /** Left fold of `Step` over the rows, starting from the empty table. */
  function Load(rows: seq<Row>, p: Parsers): Table
  {
    if |rows| == 0 then map[] else Step(Load(rows[..|rows| - 1], p), rows[|rows| - 1], p)
  }

  /** How reading the file ended: the file is absent, the CSV parser emitted an
      error (possibly after some rows were already folded in), or the parser
      reached the end of the rows. */
  datatype Source = FileMissing | ParserError(readBeforeError: seq<Row>) | Parsed(rows: seq<Row>)

  /** `loadStudentsFromCSV`: a missing file or a parser error gives the empty
      table, never a partial one; a complete read gives exactly the non-empty
      normalised rolls as keys, each with the record its rows describe. */
  function LoadStudents(src: Source, p: Parsers): (t: Table)
    ensures !src.Parsed? ==> t == map[]
    ensures src.Parsed? ==> forall k :: k in t <==> k != "" && Mentions(src.rows, k)
    ensures src.Parsed? ==> forall k :: k in t ==> Mentions(src.rows, k) && t[k] == Expected(src.rows, k, p)
  {
    match src
    case FileMissing => map[]
    case ParserError(_) => map[]
    case Parsed(rows) =>
      LoadKeys(rows, p);
      LoadDescribed(rows, p);
      Load(rows, p)
  }

  /** The stream loop: one `Step` per row, in file order. */
  method LoadRows(rows: seq<Row>, p: Parsers) returns (students: Table)
    ensures students == Load(rows, p)
    ensures forall k :: k in students ==> students[k].roll == k
  {
    students := map[];
    for i := 0 to |rows|
      invariant students == Load(rows[..i], p)
      invariant forall k :: k in students ==> students[k].roll == k
    {
      assert rows[..i + 1][..i] == rows[..i];
      students := Step(students, rows[i], p);
    }
    assert rows[..|rows|] == rows;
  }

  // ----- Reference description of the table, row by row -----

  /** Some row is filed under `k`. */
  predicate Mentions(rows: seq<Row>, k: string)
  {
    exists i :: 0 <= i < |rows| && RollOf(rows[i]) == k
  }

  /** The position of the first row filed under `k`. */
  function FirstIndex(rows: seq<Row>, k: string): (i: nat)
    requires Mentions(rows, k)
    ensures i < |rows| && RollOf(rows[i]) == k
    ensures forall j :: 0 <= j < i ==> RollOf(rows[j]) != k
  {
    if RollOf(rows[0]) == k then 0
    else
      var w :| 0 <= w < |rows| && RollOf(rows[w]) == k;
      assert RollOf(rows[1..][w - 1]) == k;
      1 + FirstIndex(rows[1..], k)
  }

  /** The subjects of the rows filed under `k`, in file order. */
  function SubjectsFor(rows: seq<Row>, k: string, p: Parsers): seq<Subject>
  {
    if |rows| == 0 then []
    else (if RollOf(rows[0]) == k then [SubjectOf(rows[0], p)] else []) + SubjectsFor(rows[1..], k, p)
  }

  /** The record the loader should hold for `k`: metadata from the first row
      filed under `k`, one subject per row filed under `k`. */
  function Expected(rows: seq<Row>, k: string, p: Parsers): Student
    requires Mentions(rows, k)
  {
    var first := rows[FirstIndex(rows, k)];
    Student(Cell(first, "name", ""), k, Cell(first, "dept", ""), Cell(first, "semester", ""), SubjectsFor(rows, k, p))
  }

  lemma {:induction false} SubjectsForSnoc(rows: seq<Row>, r: Row, k: string, p: Parsers)
    ensures SubjectsFor(rows + [r], k, p)
      == SubjectsFor(rows, k, p) + (if RollOf(r) == k then [SubjectOf(r, p)] else [])
  {
    if |rows| > 0 {
      assert (rows + [r])[1..] == rows[1..] + [r];
      SubjectsForSnoc(rows[1..], r, k, p);
    } else {
      assert [r][1..] == [];
    }
  }

  lemma {:induction false} SubjectsForAbsent(rows: seq<Row>, k: string, p: Parsers)
    requires !Mentions(rows, k)
    ensures SubjectsFor(rows, k, p) == []
  {
    if |rows| > 0 {
      assert !Mentions(rows[1..], k) by {
        forall i | 0 <= i < |rows[1..]|
          ensures RollOf(rows[1..][i]) != k
        {
          assert rows[1..][i] == rows[i + 1];
        }
      }
      SubjectsForAbsent(rows[1..], k, p);
    }
  }

  lemma FirstIndexSnoc(rows: seq<Row>, r: Row, k: string)
    requires Mentions(rows, k)
    ensures Mentions(rows + [r], k)
    ensures FirstIndex(rows + [r], k) == FirstIndex(rows, k)
  {
    var i := FirstIndex(rows, k);
    assert (rows + [r])[i] == rows[i];
  }

  lemma FirstIndexNew(rows: seq<Row>, r: Row, k: string)
    requires !Mentions(rows, k) && RollOf(r) == k
    ensures Mentions(rows + [r], k)
    ensures FirstIndex(rows + [r], k) == |rows|
  {
    assert (rows + [r])[|rows|] == r;
  }

  lemma MentionsSnoc(rows: seq<Row>, r: Row, k: string)
    ensures Mentions(rows + [r], k) <==> Mentions(rows, k) || RollOf(r) == k
  {
    var all := rows + [r];
    if Mentions(all, k) && RollOf(r) != k {
      var w :| 0 <= w < |all| && RollOf(all[w]) == k;
      assert rows[w] == all[w];
    }
    if Mentions(rows, k) {
      var w :| 0 <= w < |rows| && RollOf(rows[w]) == k;
      assert all[w] == rows[w];
    }
    if RollOf(r) == k {
      assert all[|rows|] == r;
    }
  }

  /** The reference description of `k` holds of a table. */
  predicate Describes(t: Table, rows: seq<Row>, k: string, p: Parsers)
  {
    && (k in t <==> k != "" && Mentions(rows, k))
    && (k in t ==> t[k] == Expected(rows, k, p))
  }

  /** One more row keeps the table described, for a key the row is not filed under. */
  lemma DescribesStepOther(rows: seq<Row>, r: Row, k: string, p: Parsers)
    requires Describes(Load(rows, p), rows, k, p)
    requires RollOf(r) != k
    ensures Describes(Step(Load(rows, p), r, p), rows + [r], k, p)
  {
    MentionsSnoc(rows, r, k);
    SubjectsForSnoc(rows, r, k, p);
    if k in Load(rows, p) {
      FirstIndexSnoc(rows, r, k);
    }
  }

  /** One more row keeps the table described, for the key the row is filed under. */
  lemma DescribesStepSame(rows: seq<Row>, r: Row, k: string, p: Parsers)
    requires Describes(Load(rows, p), rows, k, p)
    requires RollOf(r) == k && k != ""
    ensures Describes(Step(Load(rows, p), r, p), rows + [r], k, p)
  {
    MentionsSnoc(rows, r, k);
    SubjectsForSnoc(rows, r, k, p);
    if Mentions(rows, k) {
      FirstIndexSnoc(rows, r, k);
    } else {
      SubjectsForAbsent(rows, k, p);
      FirstIndexNew(rows, r, k);
    }
  }

  /** The table is exactly the reference description: `k` is a key if and
      only if it is non-empty and some row is filed under it, and then its
      record is `Expected(rows, k, p)`. */
  lemma {:induction false} LoadAt(rows: seq<Row>, k: string, p: Parsers)
    ensures k in Load(rows, p) <==> k != "" && Mentions(rows, k)
    ensures k in Load(rows, p) ==> Load(rows, p)[k] == Expected(rows, k, p)
  {
    if |rows| > 0 {
      var init := rows[..|rows| - 1];
      var r := rows[|rows| - 1];
      assert rows == init + [r];
      LoadAt(init, k, p);
      if RollOf(r) != k {
        DescribesStepOther(init, r, k, p);
      } else if k != "" {
        DescribesStepSame(init, r, k, p);
      } else {
        MentionsSnoc(init, r, k);
      }
    }
  }

  // ----- Properties of the loaded table -----

  /** Keys are exactly the non-empty normalised rolls that occur. */
  lemma {:induction false} LoadKeys(rows: seq<Row>, p: Parsers)
    ensures forall k :: k in Load(rows, p) <==> k != "" && Mentions(rows, k)
  {
    forall k
      ensures k in Load(rows, p) <==> k != "" && Mentions(rows, k)
    {
      LoadAt(rows, k, p);
    }
  }

  /** Every record of the table is the one its rows describe. */
  lemma {:induction false} LoadDescribed(rows: seq<Row>, p: Parsers)
    ensures forall k :: k in Load(rows, p) ==> Mentions(rows, k) && Load(rows, p)[k] == Expected(rows, k, p)
  {
    forall k | k in Load(rows, p)
      ensures Mentions(rows, k) && Load(rows, p)[k] == Expected(rows, k, p)
    {
      LoadAt(rows, k, p);
    }
  }

  /** Every key is its record's `roll`, non-empty, upper-case and already
      trimmed: neither its first nor its last character is a space. */
  lemma LoadKeysNormalised(rows: seq<Row>, k: string, p: Parsers)
    requires k in Load(rows, p)
    ensures Load(rows, p)[k].roll == k
    ensures k != [] && !IsSpace(k[0]) && !IsSpace(k[|k| - 1])
    ensures IsUpper(k) && Upper(k) == k && Trim(k) == k
  {
    LoadAt(rows, k, p);
    var i := FirstIndex(rows, k);
    NormalFormIsFixed(Cell(rows[i], "roll", ""));
  }

  /** A record's name, department and semester come from the first row filed
      under its key. */
  lemma FirstRowWins(rows: seq<Row>, k: string, i: int, p: Parsers)
    requires 0 <= i < |rows| && RollOf(rows[i]) == k && k != ""
    requires forall j :: 0 <= j < i ==> RollOf(rows[j]) != k
    ensures k in Load(rows, p)
    ensures Load(rows, p)[k].name == Cell(rows[i], "name", "")
    ensures Load(rows, p)[k].dept == Cell(rows[i], "dept", "")
    ensures Load(rows, p)[k].semester == Cell(rows[i], "semester", "")
  {
    LoadAt(rows, k, p);
    var f := FirstIndex(rows, k);
    assert !(f < i) && !(i < f);
  }

  /** Later rows never change a loaded record's name, department or semester,
      and only add subjects after the ones already there. */
  lemma {:induction false} LaterRowsKeepMetadata(rows: seq<Row>, more: seq<Row>, k: string, p: Parsers)
    requires k in Load(rows, p)
    ensures k in Load(rows + more, p)
    ensures Load(rows + more, p)[k].(subjects := []) == Load(rows, p)[k].(subjects := [])
    ensures Load(rows, p)[k].subjects <= Load(rows + more, p)[k].subjects
  {
    if |more| > 0 {
      var init := more[..|more| - 1];
      assert rows + more == (rows + init) + [more[|more| - 1]];
      assert (rows + more)[..|rows + more| - 1] == rows + init;
      LaterRowsKeepMetadata(rows, init, k, p);
    } else {
      assert rows + more == rows;
    }
  }

  /** The subjects under a key are those of the rows filed under it, one per
      row, in file order. */
  lemma SubjectsInFileOrder(rows: seq<Row>, k: string, p: Parsers)
    requires k in Load(rows, p)
    ensures Load(rows, p)[k].subjects == SubjectsFor(rows, k, p)
  {
    LoadAt(rows, k, p);
  }

  /** Each accepted row appends exactly one subject, at the end. */
  lemma AppendsOneSubject(rows: seq<Row>, r: Row, p: Parsers)
    requires RollOf(r) != ""
    ensures RollOf(r) in Load(rows + [r], p)
    ensures Load(rows + [r], p)[RollOf(r)].subjects
      == (if RollOf(r) in Load(rows, p) then Load(rows, p)[RollOf(r)].subjects else []) + [SubjectOf(r, p)]
  {
  }

  /** The rows whose normalised roll is non-empty. */
  function Keyed(rows: seq<Row>): (kept: seq<Row>)
    ensures |kept| <= |rows|
    ensures forall i :: 0 <= i < |kept| ==> RollOf(kept[i]) != ""
  {
    if |rows| == 0 then []
    else Keyed(rows[..|rows| - 1]) + (if RollOf(rows[|rows| - 1]) == "" then [] else [rows[|rows| - 1]])
  }

  /** Rows with an empty normalised roll contribute nothing: dropping them
      leaves the table unchanged. */
  lemma {:induction false} UnkeyedRowsIgnored(rows: seq<Row>, p: Parsers)
    ensures Load(Keyed(rows), p) == Load(rows, p)
  {
    if |rows| > 0 {
      var init := rows[..|rows| - 1];
      var r := rows[|rows| - 1];
      assert rows == init + [r];
      UnkeyedRowsIgnored(init, p);
      assert Load(rows, p) == Step(Load(init, p), r, p);
      if RollOf(r) != "" {
        var kept := Keyed(init) + [r];
        assert Keyed(rows) == kept;
        assert kept[..|kept| - 1] == Keyed(init);
        assert Load(kept, p) == Step(Load(Keyed(init), p), r, p);
      } else {
        assert Keyed(rows) == Keyed(init);
      }
    }
  }

  /** Each missing or empty cell on its own: a text field becomes "", and the
      numeric parsers are handed "0". */
  lemma MissingCellsDefault(row: Row, p: Parsers, roll: string)
    ensures ("roll" !in row || row["roll"] == "") ==> RollOf(row) == ""
    ensures ("subject" !in row || row["subject"] == "") ==> SubjectOf(row, p).subject == ""
    ensures ("marks" !in row || row["marks"] == "") ==> SubjectOf(row, p).marks == p.marks("0")
    ensures ("credits" !in row || row["credits"] == "") ==> SubjectOf(row, p).credits == p.credits("0")
    ensures ("name" !in row || row["name"] == "") ==> Seed(row, roll).name == ""
    ensures ("dept" !in row || row["dept"] == "") ==> Seed(row, roll).dept == ""
    ensures ("semester" !in row || row["semester"] == "") ==> Seed(row, roll).semester == ""
    ensures ("marks" in row && row["marks"] != "") ==> SubjectOf(row, p).marks == p.marks(row["marks"])
    ensures ("credits" in row && row["credits"] != "") ==> SubjectOf(row, p).credits == p.credits(row["credits"])
  {
  }

  /** A row holding only a roll cell loads as a record with empty text fields
      and one subject whose marks and credits are parsed from "0". */
  lemma RollOnlyRow(roll: string, p: Parsers)
    requires Trim(Upper(roll)) != ""
    ensures var k := Trim(Upper(roll));
      Load([map["roll" := roll]], p) == map[k := Student("", k, "", "", [Subject("", p.marks("0"), p.credits("0"))])]
  {
  }

  /** Two rows whose rolls differ only in case and surrounding spaces make one
      record with two subjects. */
  lemma MergedRollsExample(p: Parsers)
    ensures var rows := [map["roll" := "cs101", "subject" := "Maths"], map["roll" := " Cs101 ", "subject" := "Physics"]];
      var t := Load(rows, p);
      t.Keys == {"CS101"} && t["CS101"].roll == "CS101" && |t["CS101"].subjects| == 2
  {
    var rows := [map["roll" := "cs101", "subject" := "Maths"], map["roll" := " Cs101 ", "subject" := "Physics"]];
    NormalFormExample();
    assert RollOf(rows[0]) == "CS101";
    assert RollOf(rows[1]) == "CS101";
    assert rows[..1] == [rows[0]];
    assert Load(rows[..1], p) == Step(map[], rows[0], p);
    var t1 := Step(map[], rows[0], p);
    assert t1.Keys == {"CS101"} && |t1["CS101"].subjects| == 1;
    assert Load(rows, p) == Step(t1, rows[1], p);
  }
}
