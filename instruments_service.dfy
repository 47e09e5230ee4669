/** `InstrumentsService`: the instruments requests, between the routes and
    the instruments repository. */
module InstrumentsService {
  import opened Common
  import opened SoftDelete
  import opened JsParseInt
  import opened ServiceShaping
  import Repo = InstrumentsRepository

  const InvalidId := "Invalid instrument ID"
  const Missing := "Instrument not found"
  const Deleted := "Instrument soft deleted successfully"

  /** The request body fields the service reads. */
  datatype InstrumentData = InstrumentData(number: string, amount: string, date: string)

  /** `validateCreateInstrument` / `validateUpdateInstrument`: the message of
      the first detail of the validation error, or `None` when the body is valid. */
  type Validator = InstrumentData -> Option<string>

  function Columns(data: InstrumentData): Repo.Instrument {
    Repo.Instrument(data.number, data.amount, data.date)
  }

  // ---------------------------------------------------------------- requests

  function GetAllInstruments(s: Store<Repo.Instrument>, presign: Presigner)
    : Result<Response<seq<Enriched<Repo.Instrument>>>, ServiceError>
    requires WellFormed(s)
  {
    match EnrichAll(Listing(s), presign)
    case Failure(e) => Failure(e)
    case Success(list) => Success(Response(OK, "Instruments retrieved successfully", list))
  }

  function GetInstrumentById(s: Store<Repo.Instrument>, id: string, presign: Presigner)
    : Result<Response<Enriched<Repo.Instrument>>, ServiceError>
  {
    match ParseId(id, InvalidId)
    case Failure(e) => Failure(e)
    case Success(n) =>
      match Find(s, n)
      case None => Failure(ApiError(Missing, NOT_FOUND))
      case Some(row) =>
        match Enrich(row, presign)
        case Failure(e) => Failure(e)
        case Success(record) => Success(Response(OK, "Instrument retrieved successfully", record))
  }

  function CreateInstrumentStep(s: Store<Repo.Instrument>, data: InstrumentData, file: Option<UploadedFile>,
                                validate: Validator, now: Time)
    : Handled<Repo.Instrument, Enriched<Repo.Instrument>>
  {
    match validate(data)
    case Some(message) => Handled(Failure(ApiError(message, BAD_REQUEST)), s)
    case None =>
      var o := CreateStep(s, Columns(data), StoredUrl(file), now);
      Handled(Success(Response(CREATED, "Instrument created successfully", Enriched(o.result.value, AttachedLink(file)))),
              o.store)
  }

  function UpdateInstrumentStep(s: Store<Repo.Instrument>, id: string, data: InstrumentData, file: Option<UploadedFile>,
                                validate: Validator, now: Time)
    : Handled<Repo.Instrument, Enriched<Repo.Instrument>>
  {
    match ParseId(id, InvalidId)
    case Failure(e) => Handled(Failure(e), s)
    case Success(n) =>
      match validate(data)
      case Some(message) => Handled(Failure(ApiError(message, BAD_REQUEST)), s)
      case None =>
        var o := UpdateStep(s, n, Columns(data), StoredUrl(file), now);
        match o.result
        case Failure(e) => Handled(Failure(Raised(e)), o.store)
        case Success(row) =>
          Handled(Success(Response(OK, "Instrument updated successfully", Enriched(row, AttachedLink(file)))), o.store)
  }

  function DeleteInstrumentStep(s: Store<Repo.Instrument>, id: string, now: Time): Handled<Repo.Instrument, string> {
    match ParseId(id, InvalidId)
    case Failure(e) => Handled(Failure(e), s)
    case Success(n) =>
      if Find(s, n).None? then Handled(Failure(ApiError(Missing, NOT_FOUND)), s)
      else
        var o := DeleteStep(s, n, now);
        match o.result
        case Failure(e) => Handled(Failure(Raised(e)), o.store)
        case Success(success) =>
          if !success then Handled(Failure(ApiError(Missing, NOT_FOUND)), o.store)
          else Handled(Success(Response(OK, Deleted, Deleted)), o.store)
  }

  // ---------------------------------------------------------------- properties

  /** An id that `parseInt` reads as NaN or as a number `<= 0` is refused with
      400 before the repository is used. */
  lemma InvalidIdRefusedFirst(s: Store<Repo.Instrument>, id: string, data: InstrumentData, file: Option<UploadedFile>,
                              validate: Validator, presign: Presigner, now: Time)
    requires ParseInt(id).None? || ParseInt(id).value <= 0
    ensures GetInstrumentById(s, id, presign) == Failure(ApiError(InvalidId, BAD_REQUEST))
    ensures UpdateInstrumentStep(s, id, data, file, validate, now) == Handled(Failure(ApiError(InvalidId, BAD_REQUEST)), s)
    ensures DeleteInstrumentStep(s, id, now) == Handled(Failure(ApiError(InvalidId, BAD_REQUEST)), s)
  {
  }

  /** A valid id that finds no live row: 404 for get and delete; update
      fails with the repository's own 'Not found' before its 404 check is
      reached. Nothing changes. */
  lemma MissingInstrument(s: Store<Repo.Instrument>, id: string, data: InstrumentData, file: Option<UploadedFile>,
                          validate: Validator, presign: Presigner, now: Time)
    requires ParseId(id, InvalidId).Success? && Find(s, ParseId(id, InvalidId).value).None?
    ensures GetInstrumentById(s, id, presign) == Failure(ApiError(Missing, NOT_FOUND))
    ensures DeleteInstrumentStep(s, id, now) == Handled(Failure(ApiError(Missing, NOT_FOUND)), s)
    ensures validate(data).None? ==>
      UpdateInstrumentStep(s, id, data, file, validate, now) == Handled(Failure(Raised(NotFound)), s)
  {
  }

  /** A found instrument is answered with 200 and its presigned link exactly
      when it refers to a picture. */
  lemma GetInstrumentByIdEnriches(s: Store<Repo.Instrument>, id: string, presign: Presigner)
    requires WellFormed(s)
    requires ParseId(id, InvalidId).Success? && Find(s, ParseId(id, InvalidId).value).Some?
    requires GetInstrumentById(s, id, presign).Success?
    ensures var r := GetInstrumentById(s, id, presign).value;
      && r.code == OK
      && r.payload.row == Find(s, ParseId(id, InvalidId).value).value
      && (r.payload.link.Signed? <==> Truthy(r.payload.row.file))
      && r.payload.row.id == ParseInt(id).value
  {
  }

  /** The list holds every live instrument in id order, each with a link
      exactly when it refers to a picture. */
  lemma GetAllInstrumentsEnriches(s: Store<Repo.Instrument>, presign: Presigner)
    requires WellFormed(s)
    ensures var r := GetAllInstruments(s, presign);
      && (r.Success? <==> forall i :: 0 <= i < |Listing(s)| ==> Enrich(Listing(s)[i], presign).Success?)
      && (r.Success? ==>
            && r.value.code == OK
            && |r.value.payload| == |Listing(s)|
            && forall i :: 0 <= i < |Listing(s)| ==>
                 r.value.payload[i].row == Listing(s)[i] && (r.value.payload[i].link.Signed? <==> Truthy(Listing(s)[i].file)))
  {
  }

  /** A body the validator refuses is answered with 400 and its first
      message, and the repository is not used. */
  lemma InvalidBodyRefused(s: Store<Repo.Instrument>, id: string, data: InstrumentData, file: Option<UploadedFile>,
                           validate: Validator, now: Time)
    requires validate(data).Some?
    ensures CreateInstrumentStep(s, data, file, validate, now)
         == Handled(Failure(ApiError(validate(data).value, BAD_REQUEST)), s)
    ensures ParseId(id, InvalidId).Success? ==>
      UpdateInstrumentStep(s, id, data, file, validate, now) == Handled(Failure(ApiError(validate(data).value, BAD_REQUEST)), s)
  {
  }

  /** Create answers 201 with the stored row, which records `file.location`
      (or null), and with `file.presignedUrl` (or null) as its link. */
  lemma CreateInstrumentAnswers(s: Store<Repo.Instrument>, data: InstrumentData, file: Option<UploadedFile>,
                                validate: Validator, now: Time)
    requires WellFormed(s) && validate(data).None?
    ensures var h := CreateInstrumentStep(s, data, file, validate, now);
      && h.result.Success? && h.result.value.code == CREATED
      && var record := h.result.value.payload;
      && WellFormed(h.store)
      && Find(h.store, record.row.id) == Some(record.row)
      && record.row.attrs == Repo.Instrument(data.number, data.amount, data.date)
      && record.row.file == OrNull(StoredUrl(file))
      && record.link == AttachedLink(file)
  {
    CreateAddsLiveRow(s, Columns(data), StoredUrl(file), now);
  }

  /** A successful update answers 200 with the rewritten row and
      `file.presignedUrl` (or null) as its link; without a file the picture
      column becomes null. */
  lemma UpdateInstrumentAnswers(s: Store<Repo.Instrument>, id: string, data: InstrumentData, file: Option<UploadedFile>,
                                validate: Validator, now: Time)
    requires WellFormed(s)
    requires UpdateInstrumentStep(s, id, data, file, validate, now).result.Success?
    ensures var h := UpdateInstrumentStep(s, id, data, file, validate, now);
      var record := h.result.value.payload;
      && h.result.value.code == OK
      && record.row.id == ParseInt(id).value
      && Find(h.store, record.row.id) == Some(record.row)
      && record.row.attrs == Columns(data)
      && record.row.file == OrNull(StoredUrl(file))
      && (file.None? ==> record.row.file == None)
      && record.link == AttachedLink(file)
  {
    var n := ParseId(id, InvalidId).value;
    UpdateRewritesRow(s, n, Columns(data), StoredUrl(file), now);
  }

  /** Deleting a live instrument answers 200 when its picture can be
      released, after which it is no longer found. */
  lemma DeleteInstrumentAnswers(s: Store<Repo.Instrument>, id: string, now: Time)
    requires WellFormed(s)
    requires DeleteInstrumentStep(s, id, now).result.Success?
    ensures var h := DeleteInstrumentStep(s, id, now);
      && h.result.value.code == OK && h.result.value.message == Deleted
      && var n := ParseInt(id).value;
      && n > 0
      && Find(h.store, n).None?
      && h.store == DeleteStep(s, n, now).store
  {
    var n := ParseId(id, InvalidId).value;
    DeleteSoftDeletes(s, n, now, now);
  }

  // ---------------------------------------------------------------- the service

  method CreateInstrument(t: Table<Repo.Instrument>, data: InstrumentData, file: Option<UploadedFile>,
                          validate: Validator, now: Time)
    returns (r: Result<Response<Enriched<Repo.Instrument>>, ServiceError>)
    requires t.Valid()
    modifies t
    ensures t.Valid()
    ensures var h := CreateInstrumentStep(old(t.Snapshot()), data, file, validate, now);
      r == h.result && t.Snapshot() == h.store
  {
    var error := validate(data);
    if error.Some? {
      return Failure(ApiError(error.value, BAD_REQUEST));
    }
    var instrument := Repo.CreateInstrument(t, data.number, data.amount, data.date, StoredUrl(file), now);
    r := Success(Response(CREATED, "Instrument created successfully", Enriched(instrument, AttachedLink(file))));
  }

  method UpdateInstrument(t: Table<Repo.Instrument>, id: string, data: InstrumentData, file: Option<UploadedFile>,
                          validate: Validator, now: Time)
    returns (r: Result<Response<Enriched<Repo.Instrument>>, ServiceError>)
    requires t.Valid()
    modifies t, t.bucket
    ensures t.Valid()
    ensures var h := UpdateInstrumentStep(old(t.Snapshot()), id, data, file, validate, now);
      r == h.result && t.Snapshot() == h.store
  {
    var parsed := ParseId(id, InvalidId);
    if parsed.Failure? {
      return Failure(parsed.error);
    }
    var error := validate(data);
    if error.Some? {
      return Failure(ApiError(error.value, BAD_REQUEST));
    }
    var updated := Repo.UpdateInstrument(t, parsed.value, data.number, data.amount, data.date, StoredUrl(file), now);
    if updated.Failure? {
      return Failure(Raised(updated.error));
    }
    r := Success(Response(OK, "Instrument updated successfully", Enriched(updated.value, AttachedLink(file))));
  }

  method DeleteInstrument(t: Table<Repo.Instrument>, id: string, now: Time)
    returns (r: Result<Response<string>, ServiceError>)
    requires t.Valid()
    modifies t, t.bucket
    ensures t.Valid()
    ensures var h := DeleteInstrumentStep(old(t.Snapshot()), id, now);
      r == h.result && t.Snapshot() == h.store
  {
    var parsed := ParseId(id, InvalidId);
    if parsed.Failure? {
      return Failure(parsed.error);
    }
    if Find(t.Snapshot(), parsed.value).None? {
      return Failure(ApiError(Missing, NOT_FOUND));
    }
    var deleted := Repo.DeleteInstrument(t, parsed.value, now);
    if deleted.Failure? {
      return Failure(Raised(deleted.error));
    }
    r := if deleted.value then Success(Response(OK, Deleted, Deleted)) else Failure(ApiError(Missing, NOT_FOUND));
  }
}
