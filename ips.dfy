/**
 The semester grade-point average (IPS) of one student, computed from the enrollment rows
 the database returns for that student: each row carries the student's identity, a letter
 grade and the course's credit hours (SKS).

 The weighted sum and the credit total are plain sums over the rows, so they do not depend on
 the order of the rows; the average is taken once, after the sums, and is 0.0 when the credit
 total is zero.
 */
module Ips {
  import opened Grades

  /** One row of the join of student, enrollment and course. */
  datatype Row = Row(nim: string, nama: string, jurusan: string, nilai: string, sks: int)

  /** The student's identity as the report gives it. */
  datatype Student = Student(nim: string, nama: string, jurusan: string)

  /** What a successful computation reports; the values are the unrounded ones. */
  datatype Report = Report(mahasiswa: Student, totalSks: int, totalBobotSks: real, ips: real)

  /** Either there were no enrollment rows, or the report. */
  datatype Outcome = NotFound | Found(report: Report)

  /** The identity columns of a row. */
  function StudentOf(row: Row): Student {
    Student(row.nim, row.nama, row.jurusan)
  }

  /** Weight times credit hours: one course's contribution to the weighted sum. */
  function Bobot(row: Row): (b: real)
    ensures row.sks >= 0 ==> 0.0 <= b <= 4.0 * row.sks as real
    ensures Weight(row.nilai) == 0.0 || row.sks == 0 ==> b == 0.0
  {
    Weight(row.nilai) * row.sks as real
  }

  /** Credit hours of all rows; defined on the last row, as the loop adds rows in order. */
  function SumSks(rows: seq<Row>): int {
    if rows == [] then 0 else SumSks(rows[..|rows| - 1]) + rows[|rows| - 1].sks
  }

  /** Weighted contributions of all rows. */
  function SumBobot(rows: seq<Row>): real {
    if rows == [] then 0.0 else SumBobot(rows[..|rows| - 1]) + Bobot(rows[|rows| - 1])
  }

  /** The average of a weighted sum over a credit total, 0.0 when there are no credits. */
  function Average(totalBobot: real, totalSks: int): (ips: real)
    ensures totalSks == 0 ==> ips == 0.0
    ensures totalSks != 0 ==> ips * totalSks as real == totalBobot
  {
    if totalSks == 0 then 0.0 else totalBobot / totalSks as real
  }

  /** All rows belong to one student identity, as the query's filter on the NIM ensures. */
  predicate SameStudent(rows: seq<Row>) {
    forall i :: 0 <= i < |rows| ==> StudentOf(rows[i]) == StudentOf(rows[0])
  }

  /** The outcome of the IPS computation over the fetched rows. */
  function Evaluate(rows: seq<Row>): (r: Outcome)
    ensures r.NotFound? <==> rows == []
    ensures r.Found? ==> r.report.mahasiswa == StudentOf(rows[0])
    ensures r.Found? ==> r.report.totalSks == SumSks(rows) && r.report.totalBobotSks == SumBobot(rows)
    ensures r.Found? && r.report.totalSks == 0 ==> r.report.ips == 0.0
    ensures r.Found? && r.report.totalSks != 0 ==>
              r.report.ips * r.report.totalSks as real == r.report.totalBobotSks
  {
    if rows == [] then NotFound
    else
      var totalSks := SumSks(rows);
      var totalBobot := SumBobot(rows);
      Found(Report(StudentOf(rows[0]), totalSks, totalBobot, Average(totalBobot, totalSks)))
  }

  /**
   The computation as the service runs it: reject an empty row set, accumulate weight times
   credits and credits row by row, guard the division, take the identity from the first row.
   */
  method ComputeIps(rows: seq<Row>) returns (r: Outcome)
    ensures r == Evaluate(rows)
  {
    if rows == [] {
      return NotFound;
    }
    var totalBobotSks := 0.0;
    var totalSks := 0;
    for i := 0 to |rows|
      invariant totalSks == SumSks(rows[..i])
      invariant totalBobotSks == SumBobot(rows[..i])
    {
      var row := rows[i];
      var bobotNilai := Weight(row.nilai);
      var bobotSksMatkul := bobotNilai * row.sks as real;
      totalBobotSks := totalBobotSks + bobotSksMatkul;
      totalSks := totalSks + row.sks;
      assert rows[..i + 1][..i] == rows[..i];
    }
    assert rows[..|rows|] == rows;
    var ips;
    if totalSks == 0 {
      ips := 0.0;
    } else {
      ips := totalBobotSks / totalSks as real;
    }
    var info := Student(rows[0].nim, rows[0].nama, rows[0].jurusan);
    r := Found(Report(info, totalSks, totalBobotSks, ips));
  }

  /** Both sums split over a concatenation: the reduction is associative. */
  lemma {:induction false} SumsAppend(a: seq<Row>, b: seq<Row>)
    ensures SumSks(a + b) == SumSks(a) + SumSks(b)
    ensures SumBobot(a + b) == SumBobot(a) + SumBobot(b)
  {
    if b == [] {
      assert a + b == a;
    } else {
      var b' := b[..|b| - 1];
      assert (a + b)[..|a + b| - 1] == a + b';
      assert (a + b)[|a + b| - 1] == b[|b| - 1];
      SumsAppend(a, b');
    }
  }

  /** Taking one row out of the sequence takes exactly its share out of both sums. */
  lemma {:induction false} SumsRemove(rows: seq<Row>, j: nat)
    requires j < |rows|
    ensures SumSks(rows) == SumSks(rows[..j] + rows[j + 1..]) + rows[j].sks
    ensures SumBobot(rows) == SumBobot(rows[..j] + rows[j + 1..]) + Bobot(rows[j])
  {
    var n := |rows|;
    if j == n - 1 {
      assert rows[..j] + rows[j + 1..] == rows[..n - 1];
    } else {
      var init := rows[..n - 1];
      var rest := rows[..j] + rows[j + 1..];
      SumsRemove(init, j);
      assert rest[..|rest| - 1] == init[..j] + init[j + 1..];
      assert rest[|rest| - 1] == rows[n - 1];
    }
  }

  /** The sums do not depend on the order of the rows. */
  lemma {:induction false} SumsPermutationInvariant(a: seq<Row>, b: seq<Row>)
    requires multiset(a) == multiset(b)
    ensures SumSks(a) == SumSks(b) && SumBobot(a) == SumBobot(b)
    decreases |a|
  {
    if a == [] {
      assert |b| == |multiset(b)| == 0;
    } else {
      var a' := a[..|a| - 1];
      var x := a[|a| - 1];
      assert x in multiset(b) by {
        assert a == a' + [x];
      }
      var j :| 0 <= j < |b| && b[j] == x;
      var b' := b[..j] + b[j + 1..];
      assert multiset(a') == multiset(b') by {
        MultisetWithout(a, |a| - 1);
        MultisetWithout(b, j);
        assert a[..|a| - 1] + a[|a|..] == a';
      }
      SumsPermutationInvariant(a', b');
      SumsRemove(b, j);
    }
  }

  /** Taking the row at j out of a sequence takes one copy of it out of the multiset. */
  lemma MultisetWithout(rows: seq<Row>, j: nat)
    requires j < |rows|
    ensures multiset(rows[..j] + rows[j + 1..]) == multiset(rows) - multiset{rows[j]}
  {
    assert rows == rows[..j] + [rows[j]] + rows[j + 1..];
  }

  /**
   Permuting the rows changes neither the totals nor the IPS; when all rows carry one
   student's identity, as the query guarantees, the whole outcome is the same.
   */
  lemma EvaluatePermutationInvariant(a: seq<Row>, b: seq<Row>)
    requires multiset(a) == multiset(b)
    ensures Evaluate(a).NotFound? <==> Evaluate(b).NotFound?
    ensures Evaluate(a).Found? ==>
              Evaluate(a).report.totalSks == Evaluate(b).report.totalSks &&
              Evaluate(a).report.totalBobotSks == Evaluate(b).report.totalBobotSks &&
              Evaluate(a).report.ips == Evaluate(b).report.ips
    ensures SameStudent(a) ==> Evaluate(a) == Evaluate(b)
  {
    SumsPermutationInvariant(a, b);
    assert |a| == |multiset(a)| == |multiset(b)| == |b|;
    if a != [] && SameStudent(a) {
      assert b[0] in multiset(a);
      var k :| 0 <= k < |a| && a[k] == b[0];
      assert StudentOf(b[0]) == StudentOf(a[0]);
    }
  }

  /** With no negative credit hours, the credit total is non-negative and the weighted sum lies between 0 and 4 per credit. */
  lemma {:induction false} SumsBounds(rows: seq<Row>)
    requires forall i :: 0 <= i < |rows| ==> rows[i].sks >= 0
    ensures SumSks(rows) >= 0
    ensures 0.0 <= SumBobot(rows) <= 4.0 * SumSks(rows) as real
  {
    if rows != [] {
      SumsBounds(rows[..|rows| - 1]);
    }
  }

  /** With no negative credit hours, a found IPS lies in [0.0, 4.0]. */
  lemma IpsBounds(rows: seq<Row>)
    requires forall i :: 0 <= i < |rows| ==> rows[i].sks >= 0
    ensures Evaluate(rows).Found? ==> 0.0 <= Evaluate(rows).report.ips <= 4.0
  {
    SumsBounds(rows);
    var ts := SumSks(rows);
    var tb := SumBobot(rows);
    if ts != 0 {
      assert 0.0 <= tb / ts as real <= 4.0;
    }
  }

  /** When every row's grade has the same weight w, the weighted sum is w times the credit total. */
  lemma {:induction false} UniformWeightSum(rows: seq<Row>, w: real)
    requires forall i :: 0 <= i < |rows| ==> Weight(rows[i].nilai) == w
    ensures SumBobot(rows) == w * SumSks(rows) as real
  {
    if rows != [] {
      var init, last := rows[..|rows| - 1], rows[|rows| - 1];
      UniformWeightSum(init, w);
      assert Bobot(last) == w * last.sks as real;
      assert SumBobot(rows) == w * SumSks(init) as real + w * last.sks as real;
    }
  }

  /** A weighted average of equal weights is that weight: all-A rows with credits give IPS 4.0. */
  lemma {:induction false} UniformWeightIps(rows: seq<Row>, w: real)
    requires forall i :: 0 <= i < |rows| ==> Weight(rows[i].nilai) == w
    requires SumSks(rows) != 0
    ensures Evaluate(rows).Found? && Evaluate(rows).report.ips == w
  {
    UniformWeightSum(rows, w);
    var tb, ts := SumBobot(rows), SumSks(rows);
    AverageOfUniform(tb, ts, w);
  }

  /** The average of w per credit is w. */
  lemma AverageOfUniform(tb: real, ts: int, w: real)
    requires ts != 0 && tb == w * ts as real
    ensures Average(tb, ts) == w
  {
    var t := ts as real;
    assert (Average(tb, ts) - w) * t == 0.0;
  }

  /** Rows whose credit hours are all zero are found, with zero credits and IPS 0.0, whatever their grades. */
  lemma {:induction false} ZeroCreditRows(rows: seq<Row>)
    requires rows != []
    requires forall i :: 0 <= i < |rows| ==> rows[i].sks == 0
    ensures Evaluate(rows).Found?
    ensures Evaluate(rows).report.totalSks == 0 && Evaluate(rows).report.ips == 0.0
  {
    ZeroCreditSks(rows);
  }

  /** Credits that are all zero add up to zero. */
  lemma {:induction false} ZeroCreditSks(rows: seq<Row>)
    requires forall i :: 0 <= i < |rows| ==> rows[i].sks == 0
    ensures SumSks(rows) == 0
  {
    if rows != [] {
      ZeroCreditSks(rows[..|rows| - 1]);
    }
  }

  /** Rows (A, 3), (B+, 4), (C, 2): weighted sum 30.0, 9 credits, IPS 30/9. */
  lemma ExampleThreeCourses()
    ensures
      var rows := [Row("12345", "Budi", "Informatika", "A", 3),
                   Row("12345", "Budi", "Informatika", "B+", 4),
                   Row("12345", "Budi", "Informatika", "C", 2)];
      Evaluate(rows) == Found(Report(Student("12345", "Budi", "Informatika"), 9, 30.0, 30.0 / 9.0))
  {
    WeightTable();
    var rows := [Row("12345", "Budi", "Informatika", "A", 3),
                 Row("12345", "Budi", "Informatika", "B+", 4),
                 Row("12345", "Budi", "Informatika", "C", 2)];
    assert rows[..|rows| - 1] == rows[..2];
    assert rows[..2][..1] == rows[..1];
    assert rows[..1][..0] == [];
    assert SumSks(rows[..1]) == 3 && SumBobot(rows[..1]) == 12.0;
    assert SumSks(rows[..2]) == 7 && SumBobot(rows[..2]) == 26.0;
    assert SumSks(rows) == 9 && SumBobot(rows) == 30.0;
  }

  /** A single row with an unknown grade weighs nothing: 3 credits, weighted sum 0.0, IPS 0.0. */
  lemma ExampleUnknownGrade()
    ensures
      var rows := [Row("12345", "Budi", "Informatika", "X", 3)];
      Evaluate(rows) == Found(Report(Student("12345", "Budi", "Informatika"), 3, 0.0, 0.0))
  {
    UnknownGradesWeighZero();
  }
}
