/** The entities the loader builds and the report service reads. */
module Records {

  /** One subject row of a student: its name, integer marks and decimal credits. */
  datatype Subject = Subject(subject: string, marks: int, credits: real)

  /** A student's aggregated record; `subjects` is in file order. */
  datatype Student = Student(
    name: string,
    roll: string,
    dept: string,
    semester: string,
    subjects: seq<Subject>)

  /** The in-memory table, keyed by normalised roll number. */
  type Table = map<string, Student>

  /** A parsed input row: column name to cell text, as the CSV parser yields it. */
  type Row = map<string, string>
}
