# Semester GPA (IPS) of the academic service, in Dafny

This project models the `acad-service` of UAS-AKSO-Docker. The service is a small FastAPI app over
three PostgreSQL tables: `mahasiswa` (students), `krs` (enrollments) and `mata_kuliah` (courses).
The model covers the one piece of domain logic, the endpoint `GET /api/acad/ips?nim=...`:

- **Grades** (`grades.dfy`). `convert_grade_to_weight` upper-cases a letter grade and looks it up
  in a fixed table: A=4.0, B+=3.5, B=3.0, B-=2.75, C+=2.5, C=2.0, D=1.0, E=0.0. Any other string
  weighs 0.0, never an error. All these weights are multiples of 0.25, so Dafny's `real` holds
  them exactly.
- **Ips** (`ips.dfy`). The computation over the rows the join returns, each one
  `(nim, nama, jurusan, nilai, sks)`:
  - an empty row set is "not found";
  - a loop sums weight×SKS and SKS;
  - the division is guarded, so zero credits give IPS 0.0;
  - the student's identity comes from the first row.
  `ComputeIps` is the imperative loop. It is proved equal to the specification function
  `Evaluate`, which is defined through the recursive sums `SumSks` and `SumBobot`. The lemmas
  cover associativity and order independence of the sums, the bounds 0 ≤ IPS ≤ 4, and the
  weighted-average property.
- **AcadService** (`service.dfy`). The request around the computation:
  - the `min_length=5` rule on the `nim` query parameter;
  - the database as a function parameter `query` that returns rows or a driver error;
  - the 404 for no rows, re-raised unchanged;
  - the 500 for a database failure, carrying the driver's message;
  - the status codes.

  The rule "validate before querying" is stated by saying what the caller can observe: for a
  short NIM, the response is the same whatever the database would return.

The sums recurse on the last row, as the loop adds rows in order. So the loop invariants are
exactly "the accumulators hold the sums of the processed prefix".

## Model

| member | source | states |
|---|---|---|
| `Grades.UpperChar` | UAS-AKSO-Docker/acad-service/main.py:94 | the definition of ASCII upper-casing of one character; its properties are stated by `Grades.Upper` and `Grades.UpperIdempotent` |
| `Grades.Upper` | UAS-AKSO-Docker/acad-service/main.py:94 | upper-casing keeps the length, maps each character by ASCII upper-casing, and leaves no lower-case ASCII letter |
| `Grades.Weight` | UAS-AKSO-Docker/acad-service/main.py:88-94 | every weight lies in [0.0, 4.0]; a grade whose upper-case form is not in the table weighs 0.0 (so a non-zero weight comes only from a table grade) |
| `Grades.UpperIdempotent` | UAS-AKSO-Docker/acad-service/main.py:94 | upper-casing an upper-cased grade changes nothing |
| `Grades.WeightCaseInsensitive` | UAS-AKSO-Docker/acad-service/main.py:94 | a grade weighs exactly what its upper-case form weighs |
| `Grades.WeightIgnoresCase` | UAS-AKSO-Docker/acad-service/main.py:94 | two grades that agree after upper-casing weigh the same |
| `Grades.WeightTable` | UAS-AKSO-Docker/acad-service/main.py:90-92 | A, B+, B, B-, C+, C, D, E weigh exactly 4.0, 3.5, 3.0, 2.75, 2.5, 2.0, 1.0, 0.0, in upper and in lower case |
| `Grades.TableGradeWeight` | UAS-AKSO-Docker/acad-service/main.py:90-94 | a table grade and any spelling of it that upper-cases to it weigh the table's value |
| `Grades.UnknownGradesWeighZero` | UAS-AKSO-Docker/acad-service/main.py:94 | "X", the empty string, "A " and "A+" weigh 0.0 |
| `Grades.WeightDeterminesGrade` | UAS-AKSO-Docker/acad-service/main.py:90-92 | two grades with the same non-zero weight are the same grade after upper-casing (the table is one-to-one apart from 0.0) |
| `Ips.Bobot` | UAS-AKSO-Docker/acad-service/main.py:135-138 | one course's weight×SKS lies between 0 and 4×SKS when its SKS is not negative, and is 0.0 when the grade weighs nothing or the course has no credits |
| `Ips.SumSks` | UAS-AKSO-Docker/acad-service/main.py:127-142 | the reference definition of `total_sks`: the SKS of all rows, starting from 0 and adding each row in order; its properties are stated by `Ips.SumsAppend`, `Ips.SumsPermutationInvariant`, `Ips.SumsBounds` and `Ips.ZeroCreditSks` |
| `Ips.SumBobot` | UAS-AKSO-Docker/acad-service/main.py:126-141 | the reference definition of `total_bobot_sks`: the weight×SKS of all rows, starting from 0.0 and adding each row in order; its properties are stated by `Ips.SumsAppend`, `Ips.SumsPermutationInvariant`, `Ips.SumsBounds` and `Ips.UniformWeightSum` |
| `Ips.Average` | UAS-AKSO-Docker/acad-service/main.py:144-148 | with zero credits the average is 0.0 whatever the weighted sum; otherwise the average times the credits is the weighted sum |
| `Ips.Evaluate` | UAS-AKSO-Docker/acad-service/main.py:122-162 | not found exactly when there are no rows; otherwise the identity is the first row's nim, nama and jurusan and nothing else, the totals are the sums of SKS and of weight×SKS, and the IPS is 0.0 for zero credits and the weighted sum over the credits otherwise |
| `Ips.ComputeIps` | UAS-AKSO-Docker/acad-service/main.py:122-155 | the loop with its zero-credit guard produces exactly `Evaluate(rows)`; the invariants say the accumulators hold the sums over the processed prefix |
| `Ips.SumsAppend` | UAS-AKSO-Docker/acad-service/main.py:130-142 | both sums split over a concatenation of row sequences |
| `Ips.SumsRemove` | UAS-AKSO-Docker/acad-service/main.py:130-142 | removing one row removes exactly its SKS and its weight×SKS from the sums |
| `Ips.SumsPermutationInvariant` | UAS-AKSO-Docker/acad-service/main.py:130-142 | any permutation of the rows has the same SKS total and weighted sum |
| `Ips.EvaluatePermutationInvariant` | UAS-AKSO-Docker/acad-service/main.py:122-155 | a permutation of the rows gives the same found/not-found outcome, totals and IPS; if all rows carry one student's identity, the whole outcome is the same |
| `Ips.SumsBounds` | UAS-AKSO-Docker/acad-service/main.py:126-142 | with no negative SKS, the SKS total is non-negative and the weighted sum lies between 0 and 4 times the SKS total |
| `Ips.IpsBounds` | UAS-AKSO-Docker/acad-service/main.py:144-148 | with no negative SKS, a found IPS lies in [0.0, 4.0] |
| `Ips.UniformWeightSum` | UAS-AKSO-Docker/acad-service/main.py:130-142 | when every grade has the same weight w, the weighted sum is w times the SKS total |
| `Ips.AverageOfUniform` | UAS-AKSO-Docker/acad-service/main.py:144-148 | the average of a weighted sum that is w per credit is w |
| `Ips.UniformWeightIps` | UAS-AKSO-Docker/acad-service/main.py:130-148 | when every grade has the same weight w and there are credits, the result is found and its IPS is w |
| `Ips.ZeroCreditSks` | UAS-AKSO-Docker/acad-service/main.py:142 | rows whose SKS are all zero have SKS total 0 |
| `Ips.ZeroCreditRows` | UAS-AKSO-Docker/acad-service/main.py:144-145 | non-empty rows with zero SKS are found, not "not found", with total 0 and IPS 0.0, whatever the grades |
| `Ips.ExampleThreeCourses` | UAS-AKSO-Docker/acad-service/main.py:126-155 | rows (A,3), (B+,4), (C,2) give 9 credits, weighted sum 30.0 and IPS 30/9 |
| `Ips.ExampleUnknownGrade` | UAS-AKSO-Docker/acad-service/main.py:88-94 | one row (X,3) gives 3 credits, weighted sum 0.0 and IPS 0.0 |
| `AcadService.NimValid` | UAS-AKSO-Docker/acad-service/main.py:98 | the definition of the `min_length=5` rule; that a short NIM is refused before the database is asked is stated by `AcadService.HandleIps` and `AcadService.ShortNimSkipsStore` |
| `AcadService.StatusCode` | UAS-AKSO-Docker/acad-service/main.py:98-169 | each response has one of the statuses 200, 404, 422, 500: 200 exactly for a report, 404 exactly for not found, 500 exactly for a server error |
| `AcadService.HandleIps` | UAS-AKSO-Docker/acad-service/main.py:97-169 | a short NIM is refused; a database error becomes a 500 carrying the message; no rows become a 404 naming the NIM; a report is returned exactly when the NIM is valid and rows exist, and it is the computation's outcome over those rows |
| `AcadService.CalculateIps` | UAS-AKSO-Docker/acad-service/main.py:97-169 | the endpoint run step by step (validate, fetch, raise 404 on no rows, loop, report) gives exactly `HandleIps` |
| `AcadService.ShortNimSkipsStore` | UAS-AKSO-Docker/acad-service/main.py:98 | a NIM shorter than 5 characters gets 422, and the response is the same whatever the database would return |
| `AcadService.NoEnrollmentIsNotFound` | UAS-AKSO-Docker/acad-service/main.py:164-166 | no enrollment rows give status 404: the not-found signal is not turned into 500 |
| `AcadService.StoreFailureIsServerError` | UAS-AKSO-Docker/acad-service/main.py:167-169 | a database error gives status 500 whose detail ends with the driver's message |
| `AcadService.ReportNamesQueriedStudent` | UAS-AKSO-Docker/acad-service/main.py:105-155 | when the rows are those of the queried NIM, the response is a report whose student is the first row's and has that NIM |
| `AcadService.ResponseIgnoresRowOrder` | UAS-AKSO-Docker/acad-service/main.py:130-155 | two databases that return the same rows of one student in different orders give the same response |

## Left out

- HTTP plumbing is not modelled: the FastAPI app, CORS, the startup hook and `/health` (main.py:11-20, 55-69). They are web setup and wall-clock time.
- Database access is not modelled: `DB_CONFIG` and the commit/rollback/close context manager (main.py:23-29, 43-53). The SQL text of both queries is left out too. The rows come in through the `query` parameter, and its `StoreError` stands for any database failure during the request: a failing `conn.commit()` after a computed report or a failing `conn.rollback()` after the 404 (main.py:47-51) also ends as a 500 (main.py:167-169).
- The student listing `get_mahasiswas` (main.py:71-84) and the `Mahasiswa` record are not modelled. The listing is only a query plus a tuple-to-dict projection.
- `Ips.Evaluate`: the report holds the unrounded `total_bobot_sks` and IPS. The output applies `round(..., 2)` (main.py:160-161), which is Python float formatting.
- Python floats are modelled as exact `real`. The table's weights are exact in binary, but float sums of many products and the final division can round. The model does not capture that.
- `Grades.Upper`: ASCII upper-casing only. Python's `str.upper()` also maps non-ASCII letters.
- NULL grades are not modelled. The code calls `.upper()` on `nilai` unguarded (main.py:94, 131), so a NULL grade raises, and the raise ends as a 500. A NULL grade is therefore not weighted 0.0. The model takes grades as non-null strings.
- NULL or non-numeric SKS are not modelled. `bobot_nilai * sks_matkul` and `total_sks += sks_matkul` (main.py:138, 142) raise a `TypeError` on a NULL SKS, and main.py:167-169 turns that into a 500. `Row.sks` is an `int`, so in the model a 500 comes only from a database failure reported by `query`.
- A request without the `nim` parameter is not modelled. `nim` is required (`Query(...)`, main.py:98), so such a request also gets the framework's 422, but `HandleIps` always receives a string.
- `AcadService.StatusCode`: the 422 for a too-short NIM is the web framework's validation status. Its response body is not modelled.
- Credit hours are unbounded integers. The schema is not part of this model, so nothing stops SKS from being negative. The bounds lemmas therefore assume non-negative SKS.
