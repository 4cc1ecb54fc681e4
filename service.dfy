/**
 The `GET /api/acad/ips?nim=...` endpoint around the IPS computation: the NIM query parameter
 must be at least five characters long, the enrollment rows of that NIM come from the
 database, an empty row set is reported as 404, and any other database failure as 500.

 The database is a parameter: `query` gives, for a NIM, either the rows the join returns or
 the message of the exception the driver raised. `StoreError` stands for any database failure
 during the request, not only a failing fetch: a failing commit after a computed report, or a
 failing rollback after the 404, also ends as a 500.
 */
module AcadService {
  import opened Ips

  /** The shortest NIM the endpoint accepts. */
  const MinNimLength: nat := 5

  /** The detail of the 404 response is this text followed by the NIM. */
  const NotFoundDetail: string := "Data KRS tidak ditemukan untuk NIM "

  /** The detail of the 500 response is this text followed by the exception's message. */
  const ServerErrorDetail: string := "Terjadi kesalahan server: "

  /** The `min_length` rule of the `nim` query parameter; the length counts Unicode scalar values. */
  predicate NimValid(nim: string) {
    |nim| >= MinNimLength
  }

  /** What the database gives back for one NIM. */
  datatype FetchResult = Rows(rows: seq<Row>) | StoreError(message: string)

  /** The endpoint's responses. */
  datatype Response =
    | Ok(report: Report)
    | InvalidNim
    | NotFoundError(detail: string)
    | ServerError(detail: string)

  /** The HTTP status of each response; a too-short NIM is refused by request validation. */
  function StatusCode(resp: Response): (code: int)
    ensures code in {200, 404, 422, 500}
    ensures code == 200 <==> resp.Ok?
    ensures code == 404 <==> resp.NotFoundError?
    ensures code == 500 <==> resp.ServerError?
  {
    match resp
    case Ok(_) => 200
    case InvalidNim => 422
    case NotFoundError(_) => 404
    case ServerError(_) => 500
  }

  /** The response of the endpoint for a NIM, given what the database returns for it. */
  function HandleIps(nim: string, query: string -> FetchResult): (resp: Response)
    ensures !NimValid(nim) ==> resp == InvalidNim
    ensures NimValid(nim) && query(nim).StoreError? ==>
              resp == ServerError(ServerErrorDetail + query(nim).message)
    ensures NimValid(nim) && query(nim) == Rows([]) ==> resp == NotFoundError(NotFoundDetail + nim)
    ensures resp.Ok? <==> NimValid(nim) && query(nim).Rows? && query(nim).rows != []
    ensures resp.Ok? ==> Evaluate(query(nim).rows) == Found(resp.report)
  {
    if !NimValid(nim) then InvalidNim
    else
      match query(nim)
      case StoreError(message) => ServerError(ServerErrorDetail + message)
      case Rows(rows) =>
        match Evaluate(rows)
        case NotFound => NotFoundError(NotFoundDetail + nim)
        case Found(report) => Ok(report)
  }

  /**
   The endpoint as the service runs it: validate, fetch, raise 404 on no rows (re-raised as
   it is, not turned into 500), run the accumulation loop, and report.
   */
  method CalculateIps(nim: string, query: string -> FetchResult) returns (resp: Response)
    ensures resp == HandleIps(nim, query)
  {
    if !NimValid(nim) {
      return InvalidNim;
    }
    var fetched := query(nim);
    if fetched.StoreError? {
      return ServerError(ServerErrorDetail + fetched.message);
    }
    var outcome := ComputeIps(fetched.rows);
    if outcome.NotFound? {
      return NotFoundError(NotFoundDetail + nim);
    }
    resp := Ok(outcome.report);
  }

  /** A too-short NIM is refused before the database is asked: the response is 422 whatever it would return. */
  lemma ShortNimSkipsStore(nim: string, query1: string -> FetchResult, query2: string -> FetchResult)
    requires !NimValid(nim)
    ensures HandleIps(nim, query1) == HandleIps(nim, query2)
    ensures StatusCode(HandleIps(nim, query1)) == 422
  {
  }

  /** A NIM with no enrollment rows gets 404, never 500 and never a success with IPS 0. */
  lemma NoEnrollmentIsNotFound(nim: string, query: string -> FetchResult)
    requires NimValid(nim) && query(nim) == Rows([])
    ensures StatusCode(HandleIps(nim, query)) == 404
  {
  }

  /** A database failure gets 500, carrying the driver's message. */
  lemma StoreFailureIsServerError(nim: string, query: string -> FetchResult)
    requires NimValid(nim) && query(nim).StoreError?
    ensures StatusCode(HandleIps(nim, query)) == 500
    ensures HandleIps(nim, query).detail[|ServerErrorDetail|..] == query(nim).message
  {
  }

  /** When the rows are those of the queried NIM, the report names that student, taken from the first row. */
  lemma ReportNamesQueriedStudent(nim: string, query: string -> FetchResult)
    requires NimValid(nim) && query(nim).Rows? && query(nim).rows != []
    requires forall i :: 0 <= i < |query(nim).rows| ==> query(nim).rows[i].nim == nim
    ensures HandleIps(nim, query).Ok?
    ensures HandleIps(nim, query).report.mahasiswa.nim == nim
    ensures HandleIps(nim, query).report.mahasiswa == StudentOf(query(nim).rows[0])
  {
  }

  /** The response does not depend on the order in which the database returns one student's rows. */
  lemma ResponseIgnoresRowOrder(nim: string, query1: string -> FetchResult, query2: string -> FetchResult)
    requires query1(nim).Rows? && query2(nim).Rows?
    requires multiset(query1(nim).rows) == multiset(query2(nim).rows)
    requires SameStudent(query1(nim).rows)
    ensures HandleIps(nim, query1) == HandleIps(nim, query2)
  {
    EvaluatePermutationInvariant(query1(nim).rows, query2(nim).rows);
  }
}
