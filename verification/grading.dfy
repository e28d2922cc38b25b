/** `getGradePoint`: the map from marks to a grade point and a letter grade. */
module Grading {

  datatype Grade = Grade(gp: nat, letter: string)

  /** The letter that goes with each grade point the table uses. */
  function LetterOf(gp: nat): string
  {
    if gp == 10 then "A+"
    else if gp == 9 then "A"
    else if gp == 8 then "B"
    else if gp == 7 then "C"
    else if gp == 6 then "D"
    else if gp == 5 then "E"
    else "F"
  }

  /** The grade points `getGradePoint` can return. */
  predicate IsGradePoint(gp: nat)
  {
    gp == 0 || 5 <= gp <= 10
  }

  /** Thresholds tested highest first: 90, 80, 70, 60, 50, 40, otherwise F. */
  function GradeOf(marks: int): (g: Grade)
    ensures IsGradePoint(g.gp)
    ensures g.letter == LetterOf(g.gp)
    ensures marks < 40 <==> g.gp == 0
    ensures marks < 40 <==> g.letter == "F"
  {
    if marks >= 90 then Grade(10, "A+")
    else if marks >= 80 then Grade(9, "A")
    else if marks >= 70 then Grade(8, "B")
    else if marks >= 60 then Grade(7, "C")
    else if marks >= 50 then Grade(6, "D")
    else if marks >= 40 then Grade(5, "E")
    else Grade(0, "F")
  }

  function Min(a: int, b: int): int
  {
    if a <= b then a else b
  }

  /** From 40 marks up, the grade point is the tens digit plus one, capped at 10. */
  lemma GradeFromTens(marks: int)
    requires marks >= 40
    ensures GradeOf(marks).gp == Min(10, marks / 10 + 1)
  {
  }

  /** More marks never earn fewer grade points. */
  lemma GradeMonotone(m1: int, m2: int)
    requires m1 <= m2
    ensures GradeOf(m1).gp <= GradeOf(m2).gp
  {
  }

  /** Grade point and letter determine each other. */
  lemma LetterDeterminesPoint(m1: int, m2: int)
    ensures GradeOf(m1).letter == GradeOf(m2).letter <==> GradeOf(m1).gp == GradeOf(m2).gp
  {
  }

  /** The thresholds do not overlap: each band [lo, lo + 10) below 90, the band
      from 90 up and the band below 40 each map to a single grade. */
  lemma BandsAreConstant(m1: int, m2: int)
    requires (m1 < 40 && m2 < 40) || (m1 >= 90 && m2 >= 90)
      || (40 <= m1 < 90 && 40 <= m2 < 90 && m1 / 10 == m2 / 10)
    ensures GradeOf(m1) == GradeOf(m2)
  {
  }
}
