/** The four upload wrappers: each runs multer with its S3 storage, a 5 MB
    limit, the image filter, and a single file field; it answers an upload
    error with 400, a presigning failure with 500, and otherwise passes the
    request on with the presigned link of the uploaded file. */
module UploadMiddleware {
  import opened Common
  import opened UploadNames
  import opened S3Objects
  import opened ServiceShaping

  /** `limits.fileSize`: 5 * 1024 * 1024 bytes. */
  const MaxFileSize := 5 * 1024 * 1024

  const UnexpectedFileCode := "LIMIT_UNEXPECTED_FILE"
  const FileSizeCode := "LIMIT_FILE_SIZE"
  const UploadErrorFallback := "File upload error"
  const PresignFailed := "Failed to generate pre-signed URL"

  /** One part of a multipart body, in the order the client sent it. */
  datatype Part =
    | TextField(name: string, value: string)
    | FilePart(fieldname: string, originalname: string, mimetype: string, size: nat)

  /** The options multer is created with: the one file field `.single(...)`
      accepts, `limits.fileSize`, `fileFilter`, and the storage's `key`
      callback (from the body read so far and the original file name) and
      the URL at which the storage records an object. */
  datatype Options = Options(field: string, fileSize: nat, filter: (string, string) -> Verdict,
                             key: (map<string, string>, string) -> string, location: string -> string)

  /** The four exported wrappers. */
  datatype Wrapper = BrandLogo | UserProfileImage | OrganizationLogo | InstrumentPicture {
    /** The file field `.single(...)` accepts. */
    function Field(): string {
      match this
      case BrandLogo => "logo"
      case UserProfileImage => "profile_image"
      case OrganizationLogo => "logo"
      case InstrumentPicture => "picture"
    }
    /** The storage configuration, and so the key layout, the wrapper uses. */
    function Collection(): Collection {
      match this
      case BrandLogo => Brands
      case UserProfileImage => Users
      case OrganizationLogo => Organizations
      case InstrumentPicture => Instruments
    }
    /** The answer to a `LIMIT_UNEXPECTED_FILE` error. */
    function OnlyOneMessage(): string {
      match this
      case BrandLogo => "Only one logo file is allowed"
      case UserProfileImage => "Only one profile image file is allowed"
      case OrganizationLogo => "Only one logo file is allowed"
      case InstrumentPicture => "Only one picture file is allowed"
    }
    /** The wrapper's multer options, at clock reading `now`, for the bucket at `host`. */
    function Config(now: nat, host: string): (o: Options)
      ensures o.field == Field() && o.fileSize == MaxFileSize
    {
      Options(Field(), MaxFileSize, FileFilter,
              (body: map<string, string>, name: string) => ObjectKey(Collection(), body, now, name),
              (key: string) => ObjectUrl(host, key))
    }
  }

  /** An error multer passes to the wrapper's callback: a `MulterError` with
      its code, or any other error (the filter's, the storage's). */
  datatype UploadError = MulterError(code: string, message: string) | OtherError(message: string)

  const UnexpectedFile := MulterError(UnexpectedFileCode, "Unexpected field")
  const FileTooLarge := MulterError(FileSizeCode, "File too large")

  /** `req.file` after multer-s3 has stored it. */
  datatype StoredFile = StoredFile(fieldname: string, originalname: string, mimetype: string, size: nat,
                                   key: string, location: string, presignedUrl: Option<string>)

  /** What the storage answers when asked to store an object under a key:
      the message of the error it fails with, or `None` when it stores it. */
  type PutError = string -> Option<string>

  /** What multer leaves after reading the parts: the text fields, the kept
      file, the error it stopped at, and the key of the object it wrote to
      the bucket (which it removes again when it stops at an error). */
  datatype Received = Received(body: map<string, string>, file: Option<StoredFile>,
                               error: Option<UploadError>, written: Option<string>)

  /** What the wrapper does with the request: call `next()`, or answer with
      a JSON error `{ status: 'error', code, message }`. */
  datatype Answer = Next | Respond(code: int, message: string)

  // ---------------------------------------------------------------- multer

  /** A file multer keeps: under the field, accepted by the filter, within
      the size limit, recorded where the storage puts its key. */
  predicate Kept(o: Options, f: StoredFile) {
    && f.fieldname == o.field
    && o.filter(f.originalname, f.mimetype).Accept?
    && f.size <= o.fileSize
    && f.location == o.location(f.key)
    && f.presignedUrl.None?
  }

  predicate TextOnly(parts: seq<Part>) {
    forall i :: 0 <= i < |parts| ==> parts[i].TextField?
  }

  /** The body after the text fields of `parts` are appended to it. */
  function Fields(body: map<string, string>, parts: seq<Part>): map<string, string>
    decreases |parts|
  {
    if parts == [] then body
    else Fields(if parts[0].TextField? then body[parts[0].name := parts[0].value] else body, parts[1..])
  }

  function KeyOf(file: Option<StoredFile>): Option<string> {
    if file.Some? then Some(file.value.key) else None
  }

  /** What multer does with one file part: stop with a result, or keep the
      file and read on. */
  datatype FileStep = Stop(result: Received) | Keep(file: StoredFile)

  /** One file part, given the body read so far and the file kept before it.
      A file under another field, or a second file, is
      `LIMIT_UNEXPECTED_FILE`; the filter runs next; the storage then writes
      the object under the key built from the fields read so far, and a file
      over the limit is `LIMIT_FILE_SIZE`. */
  function TakeFile(o: Options, part: Part, putError: PutError, body: map<string, string>,
                    file: Option<StoredFile>): (s: FileStep)
    requires part.FilePart?
    requires file.Some? ==> Kept(o, file.value)
    ensures s.Keep? ==> Kept(o, s.file) && s.file.key == o.key(body, part.originalname) && file.None?
    ensures s.Stop? ==> s.result.body == body && s.result.error.Some?
    ensures s.Stop? && s.result.file.Some? ==> Kept(o, s.result.file.value)
    ensures s.Stop? && s.result.error.value.MulterError? ==>
      s.result.error.value.code == UnexpectedFileCode || s.result.error.value.code == FileSizeCode
  {
    if part.fieldname != o.field || file.Some? then Stop(Received(body, file, Some(UnexpectedFile), KeyOf(file)))
    else
      match o.filter(part.originalname, part.mimetype)
      case Reject(message) => Stop(Received(body, None, Some(OtherError(message)), None))
      case Accept =>
        var key := o.key(body, part.originalname);
        var stored := putError(key).None?;
        if part.size > o.fileSize then Stop(Received(body, None, Some(FileTooLarge), if stored then Some(key) else None))
        else if !stored then Stop(Received(body, None, Some(OtherError(putError(key).value)), None))
        else Keep(StoredFile(part.fieldname, part.originalname, part.mimetype, part.size, key, o.location(key), None))
  }

  /** multer with a `.single(field)` strategy over the rest of the parts,
      given the body and file read so far: text fields are appended to the
      body, file parts go through `TakeFile`, and the first error stops it. */
  function Scan(o: Options, parts: seq<Part>, putError: PutError, body: map<string, string>,
                file: Option<StoredFile>): (r: Received)
    requires file.Some? ==> Kept(o, file.value)
    ensures r.file.Some? ==> Kept(o, r.file.value)
    ensures r.error.None? ==> r.written == KeyOf(r.file)
    ensures r.error.Some? && r.error.value.MulterError? ==>
      r.error.value.code == UnexpectedFileCode || r.error.value.code == FileSizeCode
    decreases |parts|
  {
    if parts == [] then Received(body, file, None, KeyOf(file))
    else if parts[0].TextField? then Scan(o, parts[1..], putError, body[parts[0].name := parts[0].value], file)
    else
      match TakeFile(o, parts[0], putError, body, file)
      case Stop(result) => result
      case Keep(kept) => Scan(o, parts[1..], putError, body, Some(kept))
  }

  /** multer over a whole multipart body, starting from an empty body. */
  function Receive(o: Options, parts: seq<Part>, putError: PutError): (r: Received)
    ensures r.file.Some? ==> Kept(o, r.file.value)
    ensures r.error.None? ==> r.written == KeyOf(r.file)
  {
    Scan(o, parts, putError, map[], None)
  }

  /** The bucket after multer has read the body: the object it wrote stays
      only when it read the whole body without error. */
  function MulterObjects(objects: set<string>, got: Received): (r: set<string>)
    ensures got.error.Some? ==> r == objects - (if got.written.Some? then {got.written.value} else {})
    ensures got.error.None? ==> r == objects + (if got.written.Some? then {got.written.value} else {})
  {
    var written := if got.written.Some? then objects + {got.written.value} else objects;
    if got.error.Some? && got.written.Some? then written - {got.written.value} else written
  }

  // ---------------------------------------------------------------- the wrapper

  /** The wrapper's answer to an error from multer: always 400; the
      field's own message for `LIMIT_UNEXPECTED_FILE`, otherwise the error's
      message, or 'File upload error' when it has none. */
  function ErrorAnswer(w: Wrapper, e: UploadError): (a: Answer)
    ensures a.Respond? && a.code == BAD_REQUEST && a.message != []
    ensures e.MulterError? && e.code == UnexpectedFileCode ==> a.message == w.OnlyOneMessage()
    ensures !(e.MulterError? && e.code == UnexpectedFileCode) ==>
      a.message == if e.message != [] then e.message else UploadErrorFallback
  {
    if e.MulterError? && e.code == UnexpectedFileCode then Respond(BAD_REQUEST, w.OnlyOneMessage())
    else Respond(BAD_REQUEST, if e.message != [] then e.message else UploadErrorFallback)
  }

  /** What the wrapper's callback leaves: its answer, and `req.body` and `req.file`. */
  datatype Reply = Reply(answer: Answer, body: map<string, string>, file: Option<StoredFile>)

  /** The callback the wrapper hands to multer, given the request's body and
      file before multer ran and what multer left. An error is answered and
      leaves the request as it was; a kept file gets its presigned link, or
      the request is answered with 500 when presigning fails. */
  function Callback(w: Wrapper, body: map<string, string>, file: Option<StoredFile>, got: Received,
                    presign: Presigner): (r: Reply)
    ensures got.error.Some? ==> r == Reply(ErrorAnswer(w, got.error.value), body, file)
    ensures got.error.None? ==> r.body == got.body && (r.file.Some? <==> got.file.Some?)
    ensures got.error.None? && r.answer == Next && r.file.Some? ==>
      && r.file.value == got.file.value.(presignedUrl := r.file.value.presignedUrl)
      && r.file.value.presignedUrl.Some?
      && presign(got.file.value.key, PresignTtl) == Success(r.file.value.presignedUrl.value)
    ensures got.error.None? ==>
      (r.answer == Next <==> got.file.None? || presign(got.file.value.key, PresignTtl).Success?)
    ensures got.error.None? && r.answer != Next ==> r.answer == Respond(500, PresignFailed)
  {
    if got.error.Some? then Reply(ErrorAnswer(w, got.error.value), body, file)
    else if got.file.None? then Reply(Next, got.body, None)
    else
      match presign(got.file.value.key, PresignTtl)
      case Failure(_) => Reply(Respond(500, PresignFailed), got.body, got.file)
      case Success(url) => Reply(Next, got.body, Some(got.file.value.(presignedUrl := Some(url))))
  }

  /** The request and bucket after a wrapper has run. */
  datatype Uploaded = Uploaded(answer: Answer, body: map<string, string>, file: Option<StoredFile>,
                               objects: set<string>)

  /** A wrapper run on a request whose body is `parts` (`None`: not
      multipart, which multer passes on untouched): multer, then the callback. */
  function UploadStep(w: Wrapper, body: map<string, string>, file: Option<StoredFile>, parts: Option<seq<Part>>,
                      now: nat, host: string, putError: PutError, presign: Presigner, objects: set<string>)
    : Uploaded
  {
    if parts.None? then Uploaded(Next, body, file, objects)
    else
      var got := Receive(w.Config(now, host), parts.value, putError);
      var reply := Callback(w, body, file, got, presign);
      Uploaded(reply.answer, reply.body, reply.file, MulterObjects(objects, got))
  }

  /** The parts of an Express request that the wrappers read and write. */
  class Request {
    var body: map<string, string>
    var file: Option<StoredFile>

    constructor(body: map<string, string>)
      ensures this.body == body && file.None?
    {
      this.body := body;
      file := None;
    }
  }

  /** The callback of `multerSingle(req, res, async (err) => ...)`. */
  method RunCallback(w: Wrapper, req: Request, got: Received, presign: Presigner) returns (a: Answer)
    modifies req
    ensures var r := Callback(w, old(req.body), old(req.file), got, presign);
      a == r.answer && req.body == r.body && req.file == r.file
  {
    if got.error.Some? {
      return ErrorAnswer(w, got.error.value);
    }
    req.body := got.body;
    req.file := got.file;
    if got.file.Some? {
      var signed := presign(got.file.value.key, PresignTtl);
      if signed.Failure? {
        return Respond(500, PresignFailed);
      }
      req.file := Some(got.file.value.(presignedUrl := Some(signed.value)));
    }
    a := Next;
  }

  /** `uploadBrandLogo`, `uploadUserProfileImage`, `uploadOrganizationLogo`
      and `uploadInstrumentPicture`: multer reads the body and writes the
      bucket, then the callback answers or passes the request on. */
  method Upload(w: Wrapper, req: Request, parts: Option<seq<Part>>, now: nat, host: string,
                putError: PutError, presign: Presigner, bucket: Bucket) returns (a: Answer)
    modifies req, bucket
    ensures var u := UploadStep(w, old(req.body), old(req.file), parts, now, host, putError, presign,
                                old(bucket.objects));
      a == u.answer && req.body == u.body && req.file == u.file && bucket.objects == u.objects
  {
    if parts.None? {
      return Next;
    }
    var got := Receive(w.Config(now, host), parts.value, putError);
    if got.written.Some? {
      bucket.Put(got.written.value);
      if got.error.Some? {
        bucket.Remove(got.written.value);
      }
    }
    a := RunCallback(w, req, got, presign);
  }

  // ---------------------------------------------------------------- multer's properties

  /** Text fields before a part only add to the body multer carries on with. */
  lemma {:induction false} ScanAfterText(o: Options, pre: seq<Part>, rest: seq<Part>, putError: PutError,
                                         body: map<string, string>, file: Option<StoredFile>)
    requires TextOnly(pre)
    requires file.Some? ==> Kept(o, file.value)
    ensures Scan(o, pre + rest, putError, body, file) == Scan(o, rest, putError, Fields(body, pre), file)
  {
    if pre != [] {
      var p := pre[0];
      var next := body[p.name := p.value];
      assert (pre + rest)[0] == p && p.TextField?;
      assert (pre + rest)[1..] == pre[1..] + rest;
      assert Scan(o, pre + rest, putError, body, file) == Scan(o, pre[1..] + rest, putError, next, file);
      assert Fields(body, pre) == Fields(next, pre[1..]);
      ScanAfterText(o, pre[1..], rest, putError, next, file);
    } else {
      assert pre + rest == rest;
    }
  }

  /** A file part goes through `TakeFile`, and multer reads on only when it keeps the file. */
  lemma ScanFilePart(o: Options, part: Part, rest: seq<Part>, putError: PutError,
                     body: map<string, string>, file: Option<StoredFile>)
    requires part.FilePart?
    requires file.Some? ==> Kept(o, file.value)
    ensures var step := TakeFile(o, part, putError, body, file);
      Scan(o, [part] + rest, putError, body, file)
      == if step.Stop? then step.result else Scan(o, rest, putError, body, Some(step.file))
  {
    assert ([part] + rest)[0] == part && ([part] + rest)[1..] == rest;
  }

  /** A body of text fields only is read whole, with no file and no error. */
  lemma ReceiveText(o: Options, parts: seq<Part>, putError: PutError)
    requires TextOnly(parts)
    ensures Receive(o, parts, putError) == Received(Fields(map[], parts), None, None, None)
  {
    ScanAfterText(o, parts, [], putError, map[], None);
    assert parts + [] == parts;
  }

  /** The first file part after text fields decides alone, when multer stops at it. */
  lemma ReceiveStopsAtFile(o: Options, pre: seq<Part>, part: Part, rest: seq<Part>, putError: PutError)
    requires TextOnly(pre) && part.FilePart?
    requires TakeFile(o, part, putError, Fields(map[], pre), None).Stop?
    ensures Receive(o, pre + [part] + rest, putError) == TakeFile(o, part, putError, Fields(map[], pre), None).result
  {
    assert pre + [part] + rest == pre + ([part] + rest);
    ScanAfterText(o, pre, [part] + rest, putError, map[], None);
    ScanFilePart(o, part, rest, putError, Fields(map[], pre), None);
  }

  /** A file multer keeps: the right field, accepted by the filter, small
      enough, and stored by the bucket under the key the fields before it give. */
  predicate Acceptable(o: Options, body: map<string, string>, putError: PutError, part: Part) {
    && part.FilePart? && part.fieldname == o.field
    && o.filter(part.originalname, part.mimetype).Accept?
    && part.size <= o.fileSize
    && putError(o.key(body, part.originalname)).None?
  }

  /** The file multer keeps for an acceptable part. */
  function KeptFile(o: Options, body: map<string, string>, part: Part): StoredFile
    requires part.FilePart?
  {
    var key := o.key(body, part.originalname);
    StoredFile(part.fieldname, part.originalname, part.mimetype, part.size, key, o.location(key), None)
  }

  /** Among text fields, multer keeps an acceptable file under the key the
      fields before it give, and reads every field. */
  lemma ReceiveSingleFile(o: Options, pre: seq<Part>, part: Part, rest: seq<Part>, putError: PutError)
    requires TextOnly(pre) && TextOnly(rest)
    requires Acceptable(o, Fields(map[], pre), putError, part)
    ensures var kept := KeptFile(o, Fields(map[], pre), part);
      Receive(o, pre + [part] + rest, putError) == Received(Fields(Fields(map[], pre), rest), Some(kept), None, Some(kept.key))
  {
    var body := Fields(map[], pre);
    var kept := KeptFile(o, body, part);
    assert pre + [part] + rest == pre + ([part] + rest);
    ScanAfterText(o, pre, [part] + rest, putError, map[], None);
    assert TakeFile(o, part, putError, body, None) == Keep(kept);
    ScanFilePart(o, part, rest, putError, body, None);
    ScanAfterText(o, rest, [], putError, body, Some(kept));
    assert rest + [] == rest;
  }

  /** A second file, under any field, after an acceptable one stops multer
      with `LIMIT_UNEXPECTED_FILE`, the first file's object written. */
  lemma ReceiveSecondFile(o: Options, pre: seq<Part>, part: Part, mid: seq<Part>, second: Part, rest: seq<Part>,
                          putError: PutError)
    requires TextOnly(pre) && TextOnly(mid) && second.FilePart?
    requires Acceptable(o, Fields(map[], pre), putError, part)
    ensures var kept := KeptFile(o, Fields(map[], pre), part);
      Receive(o, pre + [part] + mid + [second] + rest, putError)
      == Received(Fields(Fields(map[], pre), mid), Some(kept), Some(UnexpectedFile), Some(kept.key))
  {
    var body := Fields(map[], pre);
    var kept := KeptFile(o, body, part);
    var tail := [second] + rest;
    assert pre + [part] + mid + [second] + rest == pre + ([part] + (mid + tail));
    ScanAfterText(o, pre, [part] + (mid + tail), putError, map[], None);
    assert TakeFile(o, part, putError, body, None) == Keep(kept);
    ScanFilePart(o, part, mid + tail, putError, body, None);
    ScanAfterText(o, mid, tail, putError, body, Some(kept));
    ScanFilePart(o, second, rest, putError, Fields(body, mid), Some(kept));
  }

  // ---------------------------------------------------------------- the wrappers' properties

  /** Every wrapper allows 5242880 bytes and one file under its own field,
      filters with `fileFilter` and names objects with its collection's key. */
  lemma WrapperConfiguration(w: Wrapper, now: nat, host: string, body: map<string, string>, name: string)
    ensures var o := w.Config(now, host);
      && o.fileSize == 5242880
      && o.field == (match w
           case BrandLogo => "logo" case UserProfileImage => "profile_image"
           case OrganizationLogo => "logo" case InstrumentPicture => "picture")
      && o.key(body, name) == ObjectKey(w.Collection(), body, now, name)
      && o.location(name) == ObjectUrl(host, name)
  {
  }

  /** A request that is not multipart is passed on unchanged. */
  lemma NotMultipartIsPassedOn(w: Wrapper, body: map<string, string>, file: Option<StoredFile>,
                               now: nat, host: string, putError: PutError, presign: Presigner, objects: set<string>)
    ensures UploadStep(w, body, file, None, now, host, putError, presign, objects) == Uploaded(Next, body, file, objects)
  {
  }

  /** A body with no file is passed on with its fields and no file, and the bucket is untouched. */
  lemma NoFileIsPassedOn(w: Wrapper, body: map<string, string>, file: Option<StoredFile>, parts: seq<Part>,
                         now: nat, host: string, putError: PutError, presign: Presigner, objects: set<string>)
    requires TextOnly(parts)
    ensures UploadStep(w, body, file, Some(parts), now, host, putError, presign, objects)
         == Uploaded(Next, Fields(map[], parts), None, objects)
  {
    ReceiveText(w.Config(now, host), parts, putError);
  }

  /** A file under any other field is refused with the field's own
      "Only one ... file is allowed", and nothing changes. */
  lemma WrongFieldRefused(w: Wrapper, body: map<string, string>, file: Option<StoredFile>, pre: seq<Part>,
                          part: Part, rest: seq<Part>, now: nat, host: string, putError: PutError,
                          presign: Presigner, objects: set<string>)
    requires TextOnly(pre) && part.FilePart? && part.fieldname != w.Field()
    ensures UploadStep(w, body, file, Some(pre + [part] + rest), now, host, putError, presign, objects)
         == Uploaded(Respond(BAD_REQUEST, w.OnlyOneMessage()), body, file, objects)
  {
    ReceiveStopsAtFile(w.Config(now, host), pre, part, rest, putError);
  }

  /** A file the filter refuses is answered with 400 and the filter's
      message, and is never stored. */
  lemma FilteredFileRefused(w: Wrapper, body: map<string, string>, file: Option<StoredFile>, pre: seq<Part>,
                            part: Part, rest: seq<Part>, now: nat, host: string, putError: PutError,
                            presign: Presigner, objects: set<string>)
    requires TextOnly(pre) && part.FilePart? && part.fieldname == w.Field()
    requires FileFilter(part.originalname, part.mimetype).Reject?
    ensures UploadStep(w, body, file, Some(pre + [part] + rest), now, host, putError, presign, objects)
         == Uploaded(Respond(BAD_REQUEST, FilterMessage), body, file, objects)
  {
    ReceiveStopsAtFile(w.Config(now, host), pre, part, rest, putError);
  }

  /** A file over 5242880 bytes is answered with 400 'File too large', and
      whatever was written of it is removed from the bucket. */
  lemma OversizedFileRefused(w: Wrapper, body: map<string, string>, file: Option<StoredFile>, pre: seq<Part>,
                             part: Part, rest: seq<Part>, now: nat, host: string, putError: PutError,
                             presign: Presigner, objects: set<string>)
    requires TextOnly(pre) && part.FilePart? && part.fieldname == w.Field()
    requires FileFilter(part.originalname, part.mimetype).Accept? && part.size > MaxFileSize
    ensures var key := ObjectKey(w.Collection(), Fields(map[], pre), now, part.originalname);
      UploadStep(w, body, file, Some(pre + [part] + rest), now, host, putError, presign, objects)
      == Uploaded(Respond(BAD_REQUEST, "File too large"), body, file,
                  if putError(key).None? then objects - {key} else objects)
  {
    ReceiveStopsAtFile(w.Config(now, host), pre, part, rest, putError);
  }

  /** One acceptable file among text fields: the object is added to the
      bucket under the key built from the fields sent BEFORE the file, the
      request carries every field and the file recorded at its object URL,
      and it is passed on with the presigned link, or answered with 500
      (leaving the object in the bucket) when presigning fails. */
  lemma SingleFileUploaded(w: Wrapper, body: map<string, string>, file: Option<StoredFile>, pre: seq<Part>,
                           part: Part, rest: seq<Part>, now: nat, host: string, putError: PutError,
                           presign: Presigner, objects: set<string>)
    requires TextOnly(pre) && TextOnly(rest)
    requires part.FilePart? && part.fieldname == w.Field() && part.size <= MaxFileSize
    requires FileFilter(part.originalname, part.mimetype).Accept?
    requires putError(ObjectKey(w.Collection(), Fields(map[], pre), now, part.originalname)).None?
    ensures var key := ObjectKey(w.Collection(), Fields(map[], pre), now, part.originalname);
      var u := UploadStep(w, body, file, Some(pre + [part] + rest), now, host, putError, presign, objects);
      && u.objects == objects + {key}
      && u.body == Fields(Fields(map[], pre), rest)
      && u.file.Some? && u.file.value.key == key && u.file.value.location == ObjectUrl(host, key)
      && u.file.value.originalname == part.originalname && u.file.value.size == part.size
      && (presign(key, PresignTtl).Success? ==>
            u.answer == Next && u.file.value.presignedUrl == Some(presign(key, PresignTtl).value))
      && (presign(key, PresignTtl).Failure? ==> u.answer == Respond(500, PresignFailed))
  {
    ReceiveSingleFile(w.Config(now, host), pre, part, rest, putError);
  }

  /** A second file, under any field, after an acceptable one, is refused
      with the field's "Only one ... file is allowed", and the first file's
      object is removed again. */
  lemma SecondFileRefused(w: Wrapper, body: map<string, string>, file: Option<StoredFile>, pre: seq<Part>,
                          part: Part, mid: seq<Part>, second: Part, rest: seq<Part>, now: nat, host: string,
                          putError: PutError, presign: Presigner, objects: set<string>)
    requires TextOnly(pre) && TextOnly(mid) && second.FilePart?
    requires part.FilePart? && part.fieldname == w.Field() && part.size <= MaxFileSize
    requires FileFilter(part.originalname, part.mimetype).Accept?
    requires putError(ObjectKey(w.Collection(), Fields(map[], pre), now, part.originalname)).None?
    ensures var key := ObjectKey(w.Collection(), Fields(map[], pre), now, part.originalname);
      UploadStep(w, body, file, Some(pre + [part] + mid + [second] + rest), now, host, putError, presign, objects)
      == Uploaded(Respond(BAD_REQUEST, w.OnlyOneMessage()), body, file, objects - {key})
  {
    ReceiveSecondFile(w.Config(now, host), pre, part, mid, second, rest, putError);
  }

  /** What the wrapper promises whatever the parts: a 400 answer leaves the
      request as it was and the bucket with no new object; passing the
      request on adds at most the uploaded object, and then `req.file` carries
      its presigned link exactly when a file was uploaded. */
  lemma UploadOutcomes(w: Wrapper, body: map<string, string>, file: Option<StoredFile>, parts: seq<Part>,
                       now: nat, host: string, putError: PutError, presign: Presigner, objects: set<string>)
    ensures var u := UploadStep(w, body, file, Some(parts), now, host, putError, presign, objects);
      var got := Receive(w.Config(now, host), parts, putError);
      && (u.answer.Respond? && u.answer.code == BAD_REQUEST <==> got.error.Some?)
      && (got.error.Some? ==> u.body == body && u.file == file && u.objects <= objects)
      && (u.answer == Next ==>
            && u.objects == objects + (if got.file.Some? then {got.file.value.key} else {})
            && (u.file.Some? <==> got.file.Some?)
            && (u.file.Some? ==>
                  && u.file.value.fieldname == w.Field()
                  && u.file.value.size <= MaxFileSize
                  && FileFilter(u.file.value.originalname, u.file.value.mimetype).Accept?
                  && u.file.value.location == ObjectUrl(host, u.file.value.key)
                  && u.file.value.presignedUrl.Some?
                  && presign(u.file.value.key, PresignTtl) == Success(u.file.value.presignedUrl.value)))
  {
  }

  /** An object key has no dot segment: the folder is a plain word, and the
      file name after it holds no `/`, since busboy keeps only the base name
      of the client's file name. */
  lemma ObjectKeyHasNoDotSegments(c: Collection, body: map<string, string>, now: nat, originalname: string)
    requires NoSlash(originalname)
    ensures NoDotSegments(ObjectKey(c, body, now, originalname))
  {
    var seg, stamp := NameSegment(c, body), Decimal(now);
    assert NoSlash(seg) by {
      assert forall i :: 0 <= i < |seg| ==> IsSafeChar(seg[i]);
    }
    var name := c.Prefix() + "-" + seg + "-" + stamp + "-" + originalname;
    FileNameHasNoSlash(c.Prefix(), seg, stamp, originalname);
    NoDotSegmentsOfSegment(name);
    NoDotSegmentsCons(c.Folder(), name);
    SplitAtFolder(c.Folder(), c.Prefix(), seg, stamp, originalname);
  }

  /** A key is its folder, a `/`, and its file name. */
  lemma SplitAtFolder(folder: string, prefix: string, seg: string, stamp: string, originalname: string)
    ensures folder + "/" + prefix + "-" + seg + "-" + stamp + "-" + originalname
         == folder + "/" + (prefix + "-" + seg + "-" + stamp + "-" + originalname)
  {
  }

  /** The file name part of a key, `<prefix>-<segment>-<stamp>-<name>`, holds
      no `/` when none of its parts does. */
  lemma FileNameHasNoSlash(prefix: string, seg: string, stamp: string, originalname: string)
    requires NoSlash(prefix) && NoSlash(seg) && NoSlash(stamp) && NoSlash(originalname)
    ensures NoSlash(prefix + "-" + seg + "-" + stamp + "-" + originalname)
  {
    NoSlashJoin(prefix, "-");
    NoSlashJoin(prefix + "-", seg);
    NoSlashJoin(prefix + "-" + seg, "-");
    NoSlashJoin(prefix + "-" + seg + "-", stamp);
    NoSlashJoin(prefix + "-" + seg + "-" + stamp, "-");
    NoSlashJoin(prefix + "-" + seg + "-" + stamp + "-", originalname);
  }

  /** The URL recorded for an uploaded file leads the repositories back to
      its key, so replacing or deleting the record removes that object. */
  lemma UploadedUrlLeadsToKey(w: Wrapper, now: nat, host: string, body: map<string, string>, part: Part)
    requires IsHost(host) && part.FilePart?
    requires NoSlash(part.originalname)
    ensures var f := KeptFile(w.Config(now, host), body, part);
      KeyFromUrl(Some(f.location)) == Success(Some(f.key))
  {
    var key := ObjectKey(w.Collection(), body, now, part.originalname);
    ObjectKeyHasNoDotSegments(w.Collection(), body, now, part.originalname);
    KeyFromObjectUrl(host, key);
  }
}
