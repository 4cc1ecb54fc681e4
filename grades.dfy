/**
 Letter grade to numeric weight, as `convert_grade_to_weight` does it: upper-case the
 grade, look it up in a fixed table, and weigh anything not in the table as 0.0.

 Every weight of the table is a multiple of 0.25, so `real` holds them exactly.
 Upper-casing is ASCII only.
 */
module Grades {

  /** ASCII upper-casing of one character; every other character is left as it is. */
  function UpperChar(c: char): char {
    if 'a' <= c <= 'z' then (c as int - 32) as char else c
  }

  /** ASCII upper-casing of a string, character by character. */
  function Upper(s: string): (r: string)
    ensures |r| == |s|
    ensures forall i :: 0 <= i < |s| ==> r[i] == UpperChar(s[i])
    ensures forall i :: 0 <= i < |r| ==> !('a' <= r[i] <= 'z')
  {
    if s == [] then [] else [UpperChar(s[0])] + Upper(s[1..])
  }

  /** The grade table: eight upper-case grades and their weights on the 0.0 to 4.0 scale. */
  const GradeTable: map<string, real> :=
    map["A" := 4.0, "B+" := 3.5, "B" := 3.0, "B-" := 2.75,
        "C+" := 2.5, "C" := 2.0, "D" := 1.0, "E" := 0.0]

  /** The weight of a letter grade; a grade that is not in the table weighs 0.0, never an error. */
  function Weight(g: string): (r: real)
    ensures 0.0 <= r <= 4.0
    ensures Upper(g) !in GradeTable ==> r == 0.0
  {
    var key := Upper(g);
    if key in GradeTable then GradeTable[key] else 0.0
  }

  /** Upper-casing twice is upper-casing once. */
  lemma UpperIdempotent(s: string)
    ensures Upper(Upper(s)) == Upper(s)
  {
    var u := Upper(s);
    assert forall i :: 0 <= i < |u| ==> Upper(u)[i] == u[i];
  }

  /** The lookup is case-insensitive: a grade weighs what its upper-case form weighs. */
  lemma WeightCaseInsensitive(g: string)
    ensures Weight(g) == Weight(Upper(g))
  {
    UpperIdempotent(g);
  }

  /** Grades that agree after upper-casing weigh the same. */
  lemma WeightIgnoresCase(g: string, h: string)
    requires Upper(g) == Upper(h)
    ensures Weight(g) == Weight(h)
  {
  }

  /** The eight table grades, in either case, have exactly the table's weights. */
  lemma WeightTable()
    ensures Weight("A") == 4.0 && Weight("a") == 4.0
    ensures Weight("B+") == 3.5 && Weight("b+") == 3.5
    ensures Weight("B") == 3.0 && Weight("b") == 3.0
    ensures Weight("B-") == 2.75 && Weight("b-") == 2.75
    ensures Weight("C+") == 2.5 && Weight("c+") == 2.5
    ensures Weight("C") == 2.0 && Weight("c") == 2.0
    ensures Weight("D") == 1.0 && Weight("d") == 1.0
    ensures Weight("E") == 0.0 && Weight("e") == 0.0
  {
    TableGradeWeight("A", "a");
    TableGradeWeight("B+", "b+");
    TableGradeWeight("B", "b");
    TableGradeWeight("B-", "b-");
    TableGradeWeight("C+", "c+");
    TableGradeWeight("C", "c");
    TableGradeWeight("D", "d");
    TableGradeWeight("E", "e");
  }

  /** A table grade and any spelling that upper-cases to it weigh the table's value. */
  lemma TableGradeWeight(upper: string, lower: string)
    requires upper in GradeTable && |upper| == |lower|
    requires forall i :: 0 <= i < |lower| ==> UpperChar(lower[i]) == upper[i]
    ensures Weight(upper) == Weight(lower) == GradeTable[upper]
  {
    assert Upper(lower) == upper;
    UpperIdempotent(lower);
  }

  /** Strings outside the table weigh 0.0: unknown grades, the empty string, padded grades. */
  lemma UnknownGradesWeighZero()
    ensures Weight("X") == 0.0 && Weight("") == 0.0 && Weight("A ") == 0.0 && Weight("A+") == 0.0
  {
    assert Upper("X") == "X";
    assert Upper("A ") == "A ";
    assert Upper("A+") == "A+";
  }

  /** A non-zero weight identifies the grade: the table is one-to-one apart from 0.0. */
  lemma WeightDeterminesGrade(g: string, h: string)
    requires Weight(g) == Weight(h) != 0.0
    ensures Upper(g) == Upper(h)
  {
  }
}
