/** The computation behind `GET /student/:roll_number`: look the roll up,
    attach letter grades to a copy of the record, and add either the SGPA and
    credit total or the "-" placeholders of a student who failed a subject.

    The table is a value: a lookup cannot change it, which is what the
    source's copy of the record and of each subject protects. */
module Service {
  import opened Text
  import opened Records
  import opened Grading
  import opened Sgpa
  import opened Loader

  /** A subject as reported: the stored fields plus its letter grade. */
  datatype GradedSubject = GradedSubject(subject: string, marks: int, credits: real, grade: string)

  /** An aggregate figure, or the "-" shown for a student who failed a subject. */
  datatype Figure = Dash | Value(amount: real)

  datatype Report = Report(
    name: string,
    roll: string,
    dept: string,
    semester: string,
    subjects: seq<GradedSubject>,
    sgpa: Figure,
    totalCredits: Figure)

  /** The 404 body. */
  datatype NotFound = NotFound(error: string)

  const NotFoundMessage := "Student not found"

  datatype Result<T, E> = Ok(value: T) | Err(error: E)

  function WithGrade(s: Subject): GradedSubject
  {
    GradedSubject(s.subject, s.marks, s.credits, GradeOf(s.marks).letter)
  }

  /** The stored subject a reported one was copied from. */
  function WithoutGrade(g: GradedSubject): Subject
  {
    Subject(g.subject, g.marks, g.credits)
  }

  /** The stored record a report was built from. */
  function Stored(r: Report): Student
  {
    Student(r.name, r.roll, r.dept, r.semester, seq(|r.subjects|, i requires 0 <= i < |r.subjects| => WithoutGrade(r.subjects[i])))
  }

  /** Some subject carries the letter "F". */
  predicate HasFailed(gs: seq<GradedSubject>)
  {
    exists i :: 0 <= i < |gs| && gs[i].grade == "F"
  }

  /** Some stored subject has fewer than 40 marks. */
  predicate FailsSome(ss: seq<Subject>)
  {
    exists i :: 0 <= i < |ss| && ss[i].marks < 40
  }

  /** The handler. The key is the input upper-cased but not trimmed. An unknown
      key gives `NotFound`; otherwise the report holds the stored record
      unchanged, each subject's letter grade, and either "-" for both
      aggregates (some subject below 40 marks) or the SGPA and the plain sum
      of credits. */
  function GetReport(table: Table, rollInput: string): (r: Result<Report, NotFound>)
    ensures r.Err? <==> Upper(rollInput) !in table
    ensures r.Err? ==> r.error == NotFound(NotFoundMessage)
    ensures r.Ok? ==> Stored(r.value) == table[Upper(rollInput)]
    ensures r.Ok? ==> forall i :: 0 <= i < |r.value.subjects| ==>
      r.value.subjects[i].grade == GradeOf(r.value.subjects[i].marks).letter
    ensures r.Ok? ==> (r.value.sgpa == Dash <==> FailsSome(table[Upper(rollInput)].subjects))
    ensures r.Ok? ==> (r.value.totalCredits == Dash <==> r.value.sgpa == Dash)
    ensures r.Ok? && r.value.sgpa != Dash ==>
      && r.value.sgpa == Value(SgpaOf(table[Upper(rollInput)].subjects))
      && r.value.totalCredits == Value(TotalCredits(table[Upper(rollInput)].subjects))
  {
    var roll := Upper(rollInput);
    if roll !in table then Err(NotFound(NotFoundMessage))
    else
      var s := table[roll];
      var graded := seq(|s.subjects|, i requires 0 <= i < |s.subjects| => WithGrade(s.subjects[i]));
      assert HasFailed(graded) <==> FailsSome(s.subjects) by {
        if FailsSome(s.subjects) {
          var i :| 0 <= i < |s.subjects| && s.subjects[i].marks < 40;
          assert graded[i].grade == "F";
        }
      }
      var failed := HasFailed(graded);
      var report := Report(s.name, s.roll, s.dept, s.semester, graded,
        if failed then Dash else Value(SgpaOf(s.subjects)),
        if failed then Dash else Value(TotalCredits(s.subjects)));
      assert Stored(report).subjects == s.subjects;
      Ok(report)
  }

  /** The handler's loop: grade each copied subject, raise the failure flag
      on an "F", then fill in the aggregates. */
  method Respond(table: Table, rollInput: string) returns (r: Result<Report, NotFound>)
    ensures r == GetReport(table, rollInput)
  {
    var roll := Upper(rollInput);
    if roll !in table {
      return Err(NotFound(NotFoundMessage));
    }
    var s := table[roll];
    var graded: seq<GradedSubject> := [];
    var hasFailed := false;
    for i := 0 to |s.subjects|
      invariant |graded| == i
      invariant forall j :: 0 <= j < i ==> graded[j] == WithGrade(s.subjects[j])
      invariant hasFailed <==> exists j :: 0 <= j < i && s.subjects[j].marks < 40
    {
      var g := WithGrade(s.subjects[i]);
      graded := graded + [g];
      if g.grade == "F" {
        hasFailed := true;
      }
    }
    assert graded == seq(|s.subjects|, i requires 0 <= i < |s.subjects| => WithGrade(s.subjects[i]));
    assert hasFailed <==> FailsSome(s.subjects);
    var sgpa, totalCredits;
    if hasFailed {
      sgpa, totalCredits := Dash, Dash;
    } else {
      var mean := CalculateSgpa(s.subjects);
      sgpa, totalCredits := Value(mean), Value(TotalCredits(s.subjects));
    }
    r := Ok(Report(s.name, s.roll, s.dept, s.semester, graded, sgpa, totalCredits));
  }

  // ----- Properties of lookups -----

  /** Lookups ignore letter case: the input and its upper-case form give the
      same answer. */
  lemma LookupIgnoresCase(table: Table, rollInput: string)
    ensures GetReport(table, Upper(rollInput)) == GetReport(table, rollInput)
  {
    UpperIdempotent(rollInput);
  }

  /** Every loaded student is found by any input whose upper-case form is the
      stored key, and the report carries that key as its roll. */
  lemma {:induction false} LoadedStudentsAreFound(rows: seq<Row>, p: Parsers, rollInput: string)
    requires Upper(rollInput) in Load(rows, p)
    ensures GetReport(Load(rows, p), rollInput).Ok?
    ensures GetReport(Load(rows, p), rollInput).value.roll == Upper(rollInput)
  {
    LoadKeysNormalised(rows, Upper(rollInput), p);
  }

  /** The lookup does not trim: against a loaded table, an input that starts
      or ends with a space is never found, even when its trimmed form is. */
  lemma PaddedInputNotFound(rows: seq<Row>, p: Parsers, rollInput: string)
    requires rollInput != [] && (IsSpace(rollInput[0]) || IsSpace(rollInput[|rollInput| - 1]))
    ensures GetReport(Load(rows, p), rollInput) == Err(NotFound(NotFoundMessage))
  {
    var k := Upper(rollInput);
    UpperKeepsSpaces(rollInput, 0);
    UpperKeepsSpaces(rollInput, |rollInput| - 1);
    if k in Load(rows, p) {
      LoadKeysNormalised(rows, k, p);
      assert false;
    }
  }

  /** A student who passed every subject, with non-negative credits summing
      above zero, has an SGPA between 5 and 10. */
  lemma PassingSgpaBounds(table: Table, rollInput: string)
    requires Upper(rollInput) in table
    requires forall i :: 0 <= i < |table[Upper(rollInput)].subjects| ==> table[Upper(rollInput)].subjects[i].credits >= 0.0
    requires TotalCredits(table[Upper(rollInput)].subjects) > 0.0
    requires !FailsSome(table[Upper(rollInput)].subjects)
    ensures GetReport(table, rollInput).value.sgpa.Value?
    ensures 5.0 <= GetReport(table, rollInput).value.sgpa.amount <= 10.0
  {
    var ss := table[Upper(rollInput)].subjects;
    SgpaBetween(ss, 5, 10);
  }

  /** A student with no subjects is reported with SGPA 0 and 0 credits. */
  lemma NoSubjectsReportsZero(table: Table, rollInput: string)
    requires Upper(rollInput) in table && table[Upper(rollInput)].subjects == []
    ensures GetReport(table, rollInput).value.sgpa == Value(0.0)
    ensures GetReport(table, rollInput).value.totalCredits == Value(0.0)
  {
  }

  /** Marks 95, 85 and 35: the third subject is an "F", so both aggregates
      are "-". */
  lemma FailingExample()
    ensures var s := Student("N", "R1", "D", "S", [Subject("X", 95, 4.0), Subject("Y", 85, 3.0), Subject("Z", 35, 2.0)]);
      var r := GetReport(map["R1" := s], "r1");
      r.Ok? && r.value.subjects[2].grade == "F" && r.value.sgpa == Dash && r.value.totalCredits == Dash
  {
    UpperAt("r1");
    assert Upper("r1") == "R1";
  }

  /** Marks 95 and 85 on 4 and 3 credits: SGPA 9.57 over 7 credits. */
  lemma PassingExample()
    ensures var s := Student("N", "R1", "D", "S", [Subject("X", 95, 4.0), Subject("Y", 85, 3.0)]);
      var r := GetReport(map["R1" := s], "r1");
      r.Ok? && r.value.sgpa == Value(9.57) && r.value.totalCredits == Value(7.0)
  {
    var ss := [Subject("X", 95, 4.0), Subject("Y", 85, 3.0)];
    var s := Student("N", "R1", "D", "S", ss);
    var t := map["R1" := s];
    UpperAt("r1");
    assert Upper("r1") == "R1";
    WorkedExample();
    assert TotalCredits(ss) == 7.0 by {
      assert ss[..1] == [ss[0]];
    }
    assert !FailsSome(ss) by {
      assert ss[0].marks >= 40 && ss[1].marks >= 40;
    }
    var r := GetReport(t, "r1");
    assert r.Ok?;
    assert r.value.sgpa != Dash;
  }
}
