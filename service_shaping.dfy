/** What the instruments and organization services share: reading a route
    id with `parseInt(id, 10)`, adding a presigned link to a record that
    refers to a stored object, and the status codes and errors they answer
    with. */
module ServiceShaping {
  import opened Common
  import opened JsParseInt
  import opened S3Objects
  import opened SoftDelete

  const OK := 200
  const CREATED := 201
  const BAD_REQUEST := 400
  const NOT_FOUND := 404

  /** The lifetime, in seconds, of every presigned link. */
  const PresignTtl := 3600

  /** An `ApiError` with its message and status, or any other exception
      (from the repository, `new URL`, `decodeURIComponent` or the presigner)
      propagated with its message. */
  datatype ServiceError = ApiError(message: string, status: int) | Raised(message: string)

  /** The `ApiResponse` envelope. */
  datatype Response<T> = Response(code: int, message: string, payload: T)

  /** The presigned-link property of a returned record: not set at all, set to null, or a link. */
  datatype Link = Omitted | Null | Signed(url: string)

  /** A record as a service returns it: the row and its presigned-link property. */
  datatype Enriched<A> = Enriched(row: Row<A>, link: Link)

  /** `req.file` as the upload middleware leaves it for a service: where the
      object is recorded and the presigned link generated for it. */
  datatype UploadedFile = UploadedFile(location: string, presignedUrl: string)

  /** `getSignedUrl` for an object key and a lifetime in seconds: a link, or the error it throws. */
  type Presigner = (string, nat) -> Result<string, string>

  /** A service answer and the repository state after it. */
  datatype Handled<A, T> = Handled(result: Result<Response<T>, ServiceError>, store: Store<A>)

  // ---------------------------------------------------------------- ids

  /** `parseInt(id, 10)`, refused with 400 when it is NaN or not positive. */
  function ParseId(id: string, invalid: string): (r: Result<int, ServiceError>)
    ensures r.Success? ==> r.value > 0 && ParseInt(id) == Some(r.value)
    ensures r.Failure? ==> r.error == ApiError(invalid, BAD_REQUEST)
  {
    match ParseInt(id)
    case None => Failure(ApiError(invalid, BAD_REQUEST))
    case Some(n) => if n <= 0 then Failure(ApiError(invalid, BAD_REQUEST)) else Success(n)
  }

  /** A positive decimal, after any white space and before anything that is
      not a digit, is the id; zero and negative numbers are refused. */
  lemma ParseIdOfDecimal(ws: string, sign: string, n: nat, rest: string, invalid: string)
    requires forall i :: 0 <= i < |ws| ==> IsJsWhiteSpace(ws[i])
    requires sign == "" || sign == "+" || sign == "-"
    requires StopsNumber(rest)
    ensures ParseId(ws + sign + Decimal(n) + rest, invalid) ==
      if n > 0 && sign != "-" then Success(n) else Failure(ApiError(invalid, BAD_REQUEST))
  {
    ParseIntOfDecimal(ws, sign, n, rest);
  }

  /** An id parses exactly when `parseInt` finds a positive number. */
  lemma ParseIdAccepts(id: string, invalid: string)
    ensures ParseId(id, invalid).Success? <==> ParseInt(id).Some? && ParseInt(id).value > 0
  {
  }

  /** `"12abc"` is the id 12. */
  lemma ParseIdStopsAtLetter(invalid: string)
    ensures ParseId("12abc", invalid) == Success(12)
  {
    ParseIntStopsAtLetter();
  }

  // ---------------------------------------------------------------- enrichment

  /** The presigned link of a record: set exactly when its URL column is
      non-empty, for the key stored in that URL, with a one-hour lifetime. */
  function Enrich<A>(row: Row<A>, presign: Presigner): (r: Result<Enriched<A>, ServiceError>)
    ensures r.Success? ==> r.value.row == row && !r.value.link.Null?
    ensures r.Success? ==> (r.value.link.Omitted? <==> !Truthy(row.file))
    ensures r.Success? && Truthy(row.file) ==>
      KeyFromUrl(row.file).Success? && presign(KeyFromUrl(row.file).value.value, PresignTtl) == Success(r.value.link.url)
    ensures !Truthy(row.file) ==> r == Success(Enriched(row, Omitted))
  {
    if !Truthy(row.file) then Success(Enriched(row, Omitted))
    else
      match KeyFromUrl(row.file)
      case Failure(e) => Failure(Raised(e))
      case Success(key) =>
        match presign(key.value, PresignTtl)
        case Failure(e) => Failure(Raised(e))
        case Success(url) => Success(Enriched(row, Signed(url)))
  }

  /** A record whose object was recorded at its object URL gets the link presigned for its key. */
  lemma EnrichSignsStoredKey<A>(row: Row<A>, presign: Presigner, host: string, key: string)
    requires row.file == Some(ObjectUrl(host, key))
    requires IsHost(host) && NoDotSegments(key)
    ensures Enrich(row, presign) ==
      match presign(key, PresignTtl)
      case Failure(e) => Failure(Raised(e))
      case Success(url) => Success(Enriched(row, Signed(url)))
  {
    KeyFromObjectUrl(host, key);
  }

  /** `Promise.all` over the enriched records: the records in their order,
      or the error of the first one that fails. */
  function EnrichAll<A>(rows: seq<Row<A>>, presign: Presigner): (r: Result<seq<Enriched<A>>, ServiceError>)
    ensures r.Success? <==> forall i :: 0 <= i < |rows| ==> Enrich(rows[i], presign).Success?
    ensures r.Success? ==> |r.value| == |rows| && forall i :: 0 <= i < |rows| ==> r.value[i] == Enrich(rows[i], presign).value
    ensures r.Failure? ==> exists i :: 0 <= i < |rows| && Enrich(rows[i], presign) == Failure(r.error)
  {
    if rows == [] then Success([])
    else
      match Enrich(rows[0], presign)
      case Failure(e) => Failure(e)
      case Success(first) =>
        match EnrichAll(rows[1..], presign)
        case Failure(e) =>
          assert exists i :: 0 <= i < |rows[1..]| && Enrich(rows[1..][i], presign) == Failure(e);
          var i :| 0 <= i < |rows[1..]| && Enrich(rows[1..][i], presign) == Failure(e);
          assert Enrich(rows[i + 1], presign) == Failure(e);
          Failure(e)
        case Success(more) =>
          assert forall i :: 1 <= i < |rows| ==> rows[i] == rows[1..][i - 1];
          Success([first] + more)
  }

  /** Every listed record keeps its place, and has a link exactly when it refers to an object. */
  lemma EnrichAllKeepsOrder<A>(rows: seq<Row<A>>, presign: Presigner, i: int)
    requires EnrichAll(rows, presign).Success? && 0 <= i < |rows|
    ensures var out := EnrichAll(rows, presign).value;
      out[i].row == rows[i] && (out[i].link.Signed? <==> Truthy(rows[i].file))
  {
  }

  // ---------------------------------------------------------------- uploaded files

  /** `file ? file.location : null`: the URL the repository stores. */
  function StoredUrl(file: Option<UploadedFile>): (u: Option<string>)
    ensures u.Some? <==> file.Some?
    ensures u.Some? ==> u.value == file.value.location
  {
    if file.Some? then Some(file.value.location) else None
  }

  /** `file ? file.presignedUrl : null`: the link a create or update answers with. */
  function AttachedLink(file: Option<UploadedFile>): (l: Link)
    ensures l.Null? <==> file.None?
    ensures l.Signed? ==> l.url == file.value.presignedUrl
  {
    if file.Some? then Signed(file.value.presignedUrl) else Null
  }
}
