/** `OrganizationService`: the organization requests, between the routes and
    the organization repository. */
module OrganizationService {
  import opened Common
  import opened JsParseInt
  import opened SoftDelete
  import opened ServiceShaping
  import Repo = OrganizationRepository

  const InvalidId := "Invalid organization ID"
  const Missing := "Organization not found"
  const Deleted := "Organization soft deleted successfully"

  /** The request body fields the service reads. */
  datatype OrganizationData = OrganizationData(name: string, website: Option<string>, address: Option<string>,
                                               vendorId: Option<Scalar>, adminId: Option<Scalar>, bankingId: Option<Scalar>)

  /** `validateCreateOrganization` / `validateUpdateOrganization`: the message
      of the first detail of the validation error, or `None` when the body is valid. */
  type Validator = OrganizationData -> Option<string>

  function Columns(data: OrganizationData): Repo.Organization {
    Repo.Columns(data.name, data.website, data.address, data.vendorId, data.adminId, data.bankingId)
  }

  // ---------------------------------------------------------------- requests

  function GetAllOrganizations(s: Store<Repo.Organization>, presign: Presigner)
    : Result<Response<seq<Enriched<Repo.Organization>>>, ServiceError>
    requires WellFormed(s)
  {
    match EnrichAll(Listing(s), presign)
    case Failure(e) => Failure(e)
    case Success(list) => Success(Response(OK, "Organizations retrieved successfully", list))
  }

  function GetOrganizationById(s: Store<Repo.Organization>, id: string, presign: Presigner)
    : Result<Response<Enriched<Repo.Organization>>, ServiceError>
  {
    match ParseId(id, InvalidId)
    case Failure(e) => Failure(e)
    case Success(n) =>
      match Find(s, n)
      case None => Failure(ApiError(Missing, NOT_FOUND))
      case Some(row) =>
        match Enrich(row, presign)
        case Failure(e) => Failure(e)
        case Success(record) => Success(Response(OK, "Organization retrieved successfully", record))
  }

  function CreateOrganizationStep(s: Store<Repo.Organization>, data: OrganizationData, file: Option<UploadedFile>,
                                  validate: Validator, now: Time)
    : Handled<Repo.Organization, Enriched<Repo.Organization>>
  {
    match validate(data)
    case Some(message) => Handled(Failure(ApiError(message, BAD_REQUEST)), s)
    case None =>
      var o := CreateStep(s, Columns(data), StoredUrl(file), now);
      Handled(Success(Response(CREATED, "Organization created successfully", Enriched(o.result.value, AttachedLink(file)))),
              o.store)
  }

  function UpdateOrganizationStep(s: Store<Repo.Organization>, id: string, data: OrganizationData,
                                  file: Option<UploadedFile>, validate: Validator, now: Time)
    : Handled<Repo.Organization, Enriched<Repo.Organization>>
  {
    match ParseId(id, InvalidId)
    case Failure(e) => Handled(Failure(e), s)
    case Success(n) =>
      match validate(data)
      case Some(message) => Handled(Failure(ApiError(message, BAD_REQUEST)), s)
      case None =>
        var o := UpdateStep(s, n, Columns(data), StoredUrl(file), now);
        match o.result
        case Failure(e) => Handled(Failure(Raised(e)), o.store)
        case Success(row) =>
          Handled(Success(Response(OK, "Organization updated successfully", Enriched(row, AttachedLink(file)))), o.store)
  }

  /** No existence check of its own: a missing organization fails in the repository. */
  function DeleteOrganizationStep(s: Store<Repo.Organization>, id: string, now: Time): Handled<Repo.Organization, string> {
    match ParseId(id, InvalidId)
    case Failure(e) => Handled(Failure(e), s)
    case Success(n) =>
      var o := DeleteStep(s, n, now);
      match o.result
      case Failure(e) => Handled(Failure(Raised(e)), o.store)
      case Success(success) =>
        if !success then Handled(Failure(ApiError(Missing, NOT_FOUND)), o.store)
        else Handled(Success(Response(OK, Deleted, Deleted)), o.store)
  }

  // ---------------------------------------------------------------- properties

  /** An id that `parseInt` reads as NaN or as a number `<= 0` is refused with
      400 before the repository is used. */
  lemma InvalidIdRefusedFirst(s: Store<Repo.Organization>, id: string, data: OrganizationData,
                              file: Option<UploadedFile>, validate: Validator, presign: Presigner, now: Time)
    requires ParseInt(id).None? || ParseInt(id).value <= 0
    ensures GetOrganizationById(s, id, presign) == Failure(ApiError(InvalidId, BAD_REQUEST))
    ensures UpdateOrganizationStep(s, id, data, file, validate, now) == Handled(Failure(ApiError(InvalidId, BAD_REQUEST)), s)
    ensures DeleteOrganizationStep(s, id, now) == Handled(Failure(ApiError(InvalidId, BAD_REQUEST)), s)
  {
  }

  /** A valid id that finds no live row: get answers 404; update and delete
      fail with the repository's own 'Not found', so their 404 answers are
      never given. Nothing changes. */
  lemma MissingOrganization(s: Store<Repo.Organization>, id: string, data: OrganizationData,
                            file: Option<UploadedFile>, validate: Validator, presign: Presigner, now: Time)
    requires ParseId(id, InvalidId).Success? && Find(s, ParseId(id, InvalidId).value).None?
    ensures GetOrganizationById(s, id, presign) == Failure(ApiError(Missing, NOT_FOUND))
    ensures DeleteOrganizationStep(s, id, now) == Handled(Failure(Raised(NotFound)), s)
    ensures validate(data).None? ==>
      UpdateOrganizationStep(s, id, data, file, validate, now) == Handled(Failure(Raised(NotFound)), s)
  {
  }

  /** A found organization is answered with 200 and its presigned link
      exactly when it has a logo. */
  lemma GetOrganizationByIdEnriches(s: Store<Repo.Organization>, id: string, presign: Presigner)
    requires WellFormed(s)
    requires ParseId(id, InvalidId).Success? && Find(s, ParseId(id, InvalidId).value).Some?
    requires GetOrganizationById(s, id, presign).Success?
    ensures var r := GetOrganizationById(s, id, presign).value;
      && r.code == OK
      && r.payload.row == Find(s, ParseId(id, InvalidId).value).value
      && (r.payload.link.Signed? <==> Truthy(r.payload.row.file))
      && r.payload.row.id == ParseInt(id).value
  {
  }

  /** The list holds every live organization in id order, each with a link
      exactly when it has a logo. */
  lemma GetAllOrganizationsEnriches(s: Store<Repo.Organization>, presign: Presigner)
    requires WellFormed(s)
    ensures var r := GetAllOrganizations(s, presign);
      && (r.Success? <==> forall i :: 0 <= i < |Listing(s)| ==> Enrich(Listing(s)[i], presign).Success?)
      && (r.Success? ==>
            && r.value.code == OK
            && |r.value.payload| == |Listing(s)|
            && forall i :: 0 <= i < |Listing(s)| ==>
                 r.value.payload[i].row == Listing(s)[i] && (r.value.payload[i].link.Signed? <==> Truthy(Listing(s)[i].file)))
  {
  }

  /** A body the validator refuses is answered with 400 and its first
      message, and the repository is not used. */
  lemma InvalidBodyRefused(s: Store<Repo.Organization>, id: string, data: OrganizationData,
                           file: Option<UploadedFile>, validate: Validator, now: Time)
    requires validate(data).Some?
    ensures CreateOrganizationStep(s, data, file, validate, now)
         == Handled(Failure(ApiError(validate(data).value, BAD_REQUEST)), s)
    ensures ParseId(id, InvalidId).Success? ==>
      UpdateOrganizationStep(s, id, data, file, validate, now) == Handled(Failure(ApiError(validate(data).value, BAD_REQUEST)), s)
  {
  }

  /** Create answers 201 with the stored row, which records `file.location`
      (or null) and every optional column as `x || null`, and with
      `file.presignedUrl` (or null) as its link. */
  lemma CreateOrganizationAnswers(s: Store<Repo.Organization>, data: OrganizationData, file: Option<UploadedFile>,
                                  validate: Validator, now: Time)
    requires WellFormed(s) && validate(data).None?
    ensures var h := CreateOrganizationStep(s, data, file, validate, now);
      && h.result.Success? && h.result.value.code == CREATED
      && var record := h.result.value.payload;
      && WellFormed(h.store)
      && Find(h.store, record.row.id) == Some(record.row)
      && record.row.attrs == Repo.Columns(data.name, data.website, data.address, data.vendorId, data.adminId, data.bankingId)
      && record.row.file == OrNull(StoredUrl(file))
      && record.link == AttachedLink(file)
  {
    CreateAddsLiveRow(s, Columns(data), StoredUrl(file), now);
  }

  /** A successful update answers 200 with the rewritten row and
      `file.presignedUrl` (or null) as its link; an update without a file
      empties the logo column and leaves the old logo object in the bucket. */
  lemma UpdateOrganizationAnswers(s: Store<Repo.Organization>, id: string, data: OrganizationData,
                                  file: Option<UploadedFile>, validate: Validator, now: Time)
    requires WellFormed(s)
    requires UpdateOrganizationStep(s, id, data, file, validate, now).result.Success?
    ensures var h := UpdateOrganizationStep(s, id, data, file, validate, now);
      var record := h.result.value.payload;
      && h.result.value.code == OK
      && record.row.id == ParseInt(id).value
      && Find(h.store, record.row.id) == Some(record.row)
      && record.row.attrs == Columns(data)
      && record.row.file == OrNull(StoredUrl(file))
      && (file.None? ==> record.row.file == None && h.store.objects == s.objects)
      && record.link == AttachedLink(file)
  {
    var n := ParseId(id, InvalidId).value;
    UpdateRewritesRow(s, n, Columns(data), StoredUrl(file), now);
    UpdateReleasesOldObject(s, n, Columns(data), StoredUrl(file), now);
  }

  /** Deleting answers 200 exactly when the repository soft-deletes the
      organization, after which it is no longer found. */
  lemma DeleteOrganizationAnswers(s: Store<Repo.Organization>, id: string, now: Time)
    requires WellFormed(s)
    requires DeleteOrganizationStep(s, id, now).result.Success?
    ensures var h := DeleteOrganizationStep(s, id, now);
      && h.result.value.code == OK && h.result.value.message == Deleted
      && var n := ParseInt(id).value;
      && n > 0
      && Find(h.store, n).None?
      && h.store == DeleteStep(s, n, now).store
  {
    var n := ParseId(id, InvalidId).value;
    DeleteSoftDeletes(s, n, now, now);
  }

  // ---------------------------------------------------------------- the service

  method CreateOrganization(t: Table<Repo.Organization>, data: OrganizationData, file: Option<UploadedFile>,
                            validate: Validator, now: Time)
    returns (r: Result<Response<Enriched<Repo.Organization>>, ServiceError>)
    requires t.Valid()
    modifies t
    ensures t.Valid()
    ensures var h := CreateOrganizationStep(old(t.Snapshot()), data, file, validate, now);
      r == h.result && t.Snapshot() == h.store
  {
    var error := validate(data);
    if error.Some? {
      return Failure(ApiError(error.value, BAD_REQUEST));
    }
    var organization := Repo.CreateOrganization(t, data.name, StoredUrl(file), data.website, data.address,
                                                data.vendorId, data.adminId, data.bankingId, now);
    r := Success(Response(CREATED, "Organization created successfully", Enriched(organization, AttachedLink(file))));
  }

  method UpdateOrganization(t: Table<Repo.Organization>, id: string, data: OrganizationData,
                            file: Option<UploadedFile>, validate: Validator, now: Time)
    returns (r: Result<Response<Enriched<Repo.Organization>>, ServiceError>)
    requires t.Valid()
    modifies t, t.bucket
    ensures t.Valid()
    ensures var h := UpdateOrganizationStep(old(t.Snapshot()), id, data, file, validate, now);
      r == h.result && t.Snapshot() == h.store
  {
    var parsed := ParseId(id, InvalidId);
    if parsed.Failure? {
      return Failure(parsed.error);
    }
    var error := validate(data);
    if error.Some? {
      return Failure(ApiError(error.value, BAD_REQUEST));
    }
    var updated := Repo.UpdateOrganization(t, parsed.value, data.name, StoredUrl(file), data.website, data.address,
                                           data.vendorId, data.adminId, data.bankingId, now);
    if updated.Failure? {
      return Failure(Raised(updated.error));
    }
    r := Success(Response(OK, "Organization updated successfully", Enriched(updated.value, AttachedLink(file))));
  }

  method DeleteOrganization(t: Table<Repo.Organization>, id: string, now: Time)
    returns (r: Result<Response<string>, ServiceError>)
    requires t.Valid()
    modifies t, t.bucket
    ensures t.Valid()
    ensures var h := DeleteOrganizationStep(old(t.Snapshot()), id, now);
      r == h.result && t.Snapshot() == h.store
  {
    var parsed := ParseId(id, InvalidId);
    if parsed.Failure? {
      return Failure(parsed.error);
    }
    var deleted := Repo.DeleteOrganization(t, parsed.value, now);
    if deleted.Failure? {
      return Failure(Raised(deleted.error));
    }
    r := if deleted.value then Success(Response(OK, Deleted, Deleted)) else Failure(ApiError(Missing, NOT_FOUND));
  }
}
