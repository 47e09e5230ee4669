# Bike-Inventory-C core, modelled in Dafny

Bike-Inventory-C is a REST backend for an inventory domain. Each entity is a
table of rows that are never removed: a row is soft-deleted by setting its
`deleted_at` time. A brand, user, organization or instrument may have one
image held in an S3 bucket, and its row records that image by URL. This
project models three pieces of that system and proves properties of them.

- **The upload middleware** (`middlewares/multer.js`).
  - `sanitizeFileName` lowercases a name, turns every non-`[a-z0-9]`
    character into `-`, collapses runs of hyphens and trims one hyphen from
    each end.
  - The image `fileFilter`.
  - The four storage `key` callbacks. Each builds
    `<folder>/<prefix>-<name>-<timestamp>-<originalname>`.
  - The four upload wrappers. Each runs multer with a 5 MB limit and one
    file field. An upload error is answered with 400 and a presigning
    failure with 500. Otherwise the request is passed on with the file's
    presigned link.
- **The soft-delete repositories** for brands, instruments, organizations
  and users.
  - One generic `Table` class holds a map of rows and an auto-increment
    counter, over a shared `Bucket` of object keys.
  - Each method is proved equal to a pure step function from the old table
    and bucket to the result and the new state.
  - Lemmas about the step functions state soft deletion, the "nothing else
    changes" frames, and the rule that an update removes the old object from
    the bucket only when a new one is supplied and an old one exists.
  - The users repository adds the role and banking checks, password digests,
    the single-column updates, activation and username search.
- **The instruments and organization services.**
  - Route ids are read with `parseInt(id, 10)`, modelled as a prefix parser
    over unbounded integers, and refused when NaN or not positive.
  - A presigned link is added to a record exactly when its URL column is
    non-empty.
  - The services answer with fixed status codes and messages.

The key that a repository recovers from a recorded URL is modelled too: the
URL's `pathname` without its leading `/`, percent-decoded. The recorded URL
escapes each key character outside the unreserved set as the `%XY` escapes
of its UTF-8 bytes. A proof shows that decoding gives back, for every key,
the key under which the middleware stored the object.

External collaborators become parameters:
- Multer's decision to store an object becomes `PutError`.
- The presigner becomes `Presigner`.
- The Joi validators become `Validator`.
- The clock becomes `now`.
- The bucket's host becomes `host`.

Deletion is soft throughout. No row is ever removed from a table.

Three places where the code behaves otherwise than its error taxonomy, key
layout and documentation suggest, modelled as the code has them:
- A missing record is meant to be a 404. But `updateInstrument`,
  `updateOrganization` and `deleteOrganization` call a repository that
  already throws a plain `Error('Not found')` for a missing id, so their
  own 404 answers are never given.
- The key is meant to carry the sanitized name. The code uses `unknown` only
  when the field is missing or empty. A name with no letter or digit
  sanitizes to the empty string, which gives `brand--<timestamp>-…`.
- `getS3KeyFromUrl` is documented to return null for an invalid URL, but
  `new URL` throws instead. A live row whose URL column does not parse can
  then never be deleted, nor its image replaced (see "## Findings").

## Model

| member | source | states |
|---|---|---|
| Common.OrNull | modules/brand/brandRepository.js:42 | the JavaScript `or null` fallback on a nullable string: the value when it is non-empty, otherwise null |
| Common.ScalarOrNull | modules/organization/organizationRepository.js:58 | the JavaScript `or null` fallback on a body field that is a number or text: the value unless it is null, the number 0 or the empty text; the text "0" is kept |
| Common.Lower | middlewares/multer.js:19 | `toLowerCase` keeps the length and maps each ASCII capital to its small letter and every other character to itself |
| Common.Decimal | middlewares/multer.js:48 | the timestamp's spelling in a key is a non-empty run of decimal digits with no leading zero |
| Common.DigitsValueOfDecimal | middlewares/multer.js:48 | reading back the decimal spelling of a number gives the number |
| Common.Contains | modules/users/usersRepository.js:223-226 | the left-to-right substring scan is true exactly when the word occurs at some position (the unanchored pattern test and `LIKE '%w%'`) |
| JsParseInt.SkipWhiteSpace | modules/instruments/instrumentsService.js:45 | what `parseInt` reads from starts with no white space |
| JsParseInt.SkipWhiteSpaceIsSuffix | modules/instruments/instrumentsService.js:45 | only leading white space is skipped, and what is left is a suffix of the input |
| JsParseInt.DigitPrefixLength | modules/instruments/instrumentsService.js:45 | the length of the longest run of digits at the start, followed by a non-digit or by the end |
| JsParseInt.ParseIntAfterWhiteSpace | modules/instruments/instrumentsService.js:45 | leading white space does not change what `parseInt(s, 10)` reads |
| JsParseInt.ParseDigitsOfRun | modules/instruments/instrumentsService.js:45 | a run of digits followed by a non-digit reads as the value of that run |
| JsParseInt.ParseIntOfUnsigned | modules/instruments/instrumentsService.js:45 | the decimal spelling of `n`, followed by anything but a digit, reads as `n` |
| JsParseInt.ParseIntOfDecimal | modules/instruments/instrumentsService.js:45 | white space, an optional sign, the decimal spelling of `n`, then a non-digit reads as `n` or `-n` |
| JsParseInt.ParseIntIsNaN | modules/instruments/instrumentsService.js:45-46 | the result is NaN exactly when no digit follows the white space and the optional sign |
| JsParseInt.ParseIntStopsAtLetter | modules/instruments/instrumentsService.js:45 | `"12abc"` reads as 12 |
| JsParseInt.ParseIntIgnoresHexPrefix | modules/instruments/instrumentsService.js:45 | with radix 10, `"0x1A"` reads as 0 |
| JsParseInt.ParseIntTruncatesFraction | modules/instruments/instrumentsService.js:45 | `"3.9"` reads as 3 |
| JsParseInt.ParseIntSignedExample | modules/instruments/instrumentsService.js:45 | `" \t-7"` reads as -7 |
| JsParseInt.ParseIntNaNExamples | modules/instruments/instrumentsService.js:45-46 | `"abc"`, `""` and `"+-1"` are NaN |
| S3Objects.Bucket.Put | middlewares/multer.js:40-51 | storing an upload adds exactly its key to the bucket |
| S3Objects.Bucket.Remove | middlewares/multer.js:107-114 | removing the object of a failed upload takes exactly its key out of the bucket |
| S3Objects.Bucket.DeleteFile | modules/brand/brandRepository.js:21-33 | `deleteS3File`: no key, or an empty one, leaves the bucket as it is; otherwise exactly that key is removed |
| S3Objects.Removed | modules/brand/brandRepository.js:21-33 | the bucket after `deleteS3File(key)`: unchanged for a null or empty key, otherwise without that key |
| S3Objects.Utf8Decodes | modules/brand/brandRepository.js:17 | the UTF-8 encoding of a non-ASCII character starts with a lead byte announcing its length, continues with continuation bytes, and decodes back to the character |
| S3Objects.EscapeBytes | modules/instruments/instrumentsService.js:72 | the escaped bytes are three characters per byte, each `%` or a hexadecimal digit |
| S3Objects.EncodeChar | modules/instruments/instrumentsService.js:72 | a key character in `file.location` is itself or the `%XY` escapes of its UTF-8 bytes, always ASCII; `%`, `?`, `#` and every non-ASCII character are escaped |
| S3Objects.EncodeKey | modules/instruments/instrumentsService.js:72 | an encoded key is ASCII and never holds `?` or `#`, so the whole key stays in the URL's path |
| S3Objects.PercentDecode | modules/brand/brandRepository.js:17 | `decodeURIComponent` fails only with 'URI malformed' and leaves text without `%` unchanged |
| S3Objects.EscapedByte | modules/brand/brandRepository.js:17 | a `%XY` escape is three characters long and denotes one byte |
| S3Objects.Continuations | modules/brand/brandRepository.js:17 | reading the escapes of a sequence's remaining bytes consumes three characters per byte and gives only continuation bytes |
| S3Objects.ContinuationsOf | modules/brand/brandRepository.js:17 | the escapes of continuation bytes are read back as exactly those bytes |
| S3Objects.DecodeEscapedBytes | modules/brand/brandRepository.js:17 | the escapes of a valid multi-byte UTF-8 sequence decode to its one character, before whatever follows |
| S3Objects.DecodeEncodedChar | modules/brand/brandRepository.js:17 | decoding the encoded form of one character, unreserved, escaped ASCII or a UTF-8 sequence, gives that character before whatever follows |
| S3Objects.DecodeEncodeKey | modules/brand/brandRepository.js:17 | decoding the encoded form of any key gives the key back |
| S3Objects.PathAfterHost | modules/brand/brandRepository.js:16 | the path after a non-empty host always starts with `/` |
| S3Objects.Pathname | modules/brand/brandRepository.js:16-17 | the `pathname` of a parsed URL starts with `/`, so removing its first character removes exactly that slash |
| S3Objects.KeyFromUrl | modules/brand/brandRepository.js:14-18 | `getS3KeyFromUrl`: null for a null or empty URL; for other text of the form `scheme://host[path]…` the decoded path, or 'URI malformed' on a bad escape; 'Invalid URL' for text not of that form |
| S3Objects.KeyFromUrlAsDocumented | modules/organization/organizationRepository.js:14-28 | the key as the function's documentation promises it: null where the code throws 'Invalid URL', and otherwise the code's own result |
| S3Objects.KeyFromObjectUrl | modules/organization/organizationRepository.js:24-28 | for every plain DNS host name (ASCII letters, digits, `-` and `.`, no `--`, last label starting with a letter) and every key with no `.` or `..` segment, the key is recovered from the URL at which the object is recorded |
| S3Objects.KeyFromUrlExample | modules/organization/organizationRepository.js:20-22 | the key of `https://my-bucket.s3.amazonaws.com/folder/image.jpg` is `folder/image.jpg` |
| S3Objects.KeyOfBareHost | modules/brand/brandRepository.js:14-22 | a URL with nothing after the host has the empty key, which `deleteS3File` ignores |
| S3Objects.KeyFromUrlRejectsPlainText | modules/brand/brandRepository.js:16 | text without a scheme makes `new URL` throw |
| UploadNames.Mask | middlewares/multer.js:20 | `replace(/[^a-z0-9]/g, '-')` keeps the length, keeps each small letter and digit, and turns every other character into `-` |
| UploadNames.CollapseKeepsSafeChars | middlewares/multer.js:21 | collapsing hyphen runs adds no character outside `[a-z0-9-]` |
| UploadNames.CollapseNoDoubleHyphen | middlewares/multer.js:21 | after `replace(/-+/g, '-')` no two hyphens are adjacent, and the first and last characters are kept |
| UploadNames.CollapseKeepsAlnums | middlewares/multer.js:21 | collapsing hyphen runs keeps every letter and digit, in order |
| UploadNames.CollapseOfCollapsed | middlewares/multer.js:21 | a string with no two adjacent hyphens is left unchanged |
| UploadNames.CollapseOfHyphens | middlewares/multer.js:21 | a run made only of hyphens becomes one hyphen |
| UploadNames.TrimmedIsSafe | middlewares/multer.js:22 | trimming one hyphen from each end of a collapsed string leaves a name that is safe in every respect |
| UploadNames.TrimKeepsAlnums | middlewares/multer.js:22 | trimming keeps every letter and digit, in order |
| UploadNames.MaskKeepsAlnums | middlewares/multer.js:20 | masking keeps every small letter and digit, in order |
| UploadNames.SanitizeIsSafe | middlewares/multer.js:17-23 | `sanitizeFileName` gives only `a`-`z`, `0`-`9` and `-`, never `--`, and no hyphen at either end |
| UploadNames.SanitizeKeepsAlnums | middlewares/multer.js:17-23 | the letters and digits of the result are exactly those of the lowercased input, in order |
| UploadNames.SanitizeAllSymbols | middlewares/multer.js:20-22 | an input with no ASCII letter or digit gives the empty string |
| UploadNames.SanitizeOfSafe | middlewares/multer.js:17-23 | a name that is already safe is its own sanitization |
| UploadNames.SanitizeIdempotent | middlewares/multer.js:17-23 | sanitizing twice is the same as sanitizing once |
| UploadNames.LastDot | middlewares/multer.js:98 | the index of the last `.`, with no dot after it, or -1 |
| UploadNames.StripTrailingSlashes | middlewares/multer.js:98 | what `path.extname` reads does not end with `/` |
| UploadNames.StripTrailingSlashesIsPrefix | middlewares/multer.js:98 | only trailing slashes are stripped |
| UploadNames.AfterLastSlash | middlewares/multer.js:98 | the last path segment holds no `/` |
| UploadNames.AfterLastSlashIsSuffix | middlewares/multer.js:98 | the last segment is a suffix of the path, with a `/` just before it when anything comes before it |
| UploadNames.Extname | middlewares/multer.js:98 | `path.extname` is empty, or a `.` followed by characters that are neither `.` nor `/` |
| UploadNames.ExtnameOfFileName | middlewares/multer.js:98 | the extension of `stem.ext` is `.ext` |
| UploadNames.ExtnameOfDotless | middlewares/multer.js:98 | a name without a dot has no extension |
| UploadNames.ExtnameOfDotFile | middlewares/multer.js:98 | a name whose only dot comes first (`.png`) has no extension |
| UploadNames.AllowedTypesTest | middlewares/multer.js:97-99 | the unanchored image-type test holds exactly when `s` contains one of the three words anywhere |
| UploadNames.FileFilter | middlewares/multer.js:96-104 | accepts exactly when the lowercased extension AND the MIME type, as given, each contain `jpeg`, `jpg` or `png`; otherwise refuses with 'Only PNG, JPEG, and JPG files are allowed' |
| UploadNames.FileFilterAccepts | middlewares/multer.js:100-101 | both tests passing means the file is accepted |
| UploadNames.FileFilterRejects | middlewares/multer.js:103 | either test failing means the file is refused with the filter's message |
| UploadNames.FileFilterLowercasesExtension | middlewares/multer.js:98 | `x.PNG` declared as `image/png` is accepted |
| UploadNames.FileFilterKeepsMimeCase | middlewares/multer.js:99 | a MIME type of `image/PNG` is refused, whatever the name |
| UploadNames.FileFilterUsesLastExtension | middlewares/multer.js:98 | only the last extension counts: `x.png.exe` is refused |
| UploadNames.FileFilterIsUnanchored | middlewares/multer.js:97-99 | the tests look for substrings: `x.xjpgx` declared as `foo/jpgbar` is accepted |
| UploadNames.FileFilterNeedsExtension | middlewares/multer.js:98-103 | a name with no extension, or a dot-file, is refused whatever its MIME type |
| UploadNames.NameSegment | middlewares/multer.js:47 | the name part of a key is always a safe name |
| UploadNames.ObjectKeyLayout | middlewares/multer.js:46-92 | each key starts with `<folder>/`, ends with `-<timestamp>-<originalname>`, and its name part is `sanitizeFileName` of the collection's field (`name`, `username`, `name`, `number`), or `unknown` when that field is missing or empty |
| UploadNames.ObjectKeyNotEmpty | middlewares/multer.js:46-92 | a key is never empty and starts with its folder's first letter |
| UploadNames.FolderInitialsDiffer | middlewares/multer.js:49-91 | the four folders start with four different letters |
| UploadNames.ObjectKeysOfCollectionsDiffer | middlewares/multer.js:46-92 | uploads to different collections never share a key |
| UploadNames.ObjectKeyOfSymbolName | middlewares/multer.js:46-50 | a brand named `!!!` gets an empty name part, not `unknown`: `brands/brand--5-a.png` |
| UploadMiddleware.TakeFile | middlewares/multer.js:108-112 | one file part: a wrong field or a second file is `LIMIT_UNEXPECTED_FILE`; then the filter runs; then the object is written under the key that the fields read so far give; over the size limit it is `LIMIT_FILE_SIZE`; a kept file satisfies every option |
| UploadMiddleware.Scan | middlewares/multer.js:108-114 | multer's `.single(field)` over the parts: a kept file satisfies the options; without an error, what was written is exactly the kept file's object; the only multer codes are the two limits |
| UploadMiddleware.Receive | middlewares/multer.js:108-114 | the same, for a whole request body |
| UploadMiddleware.MulterObjects | middlewares/multer.js:108-114 | an object written for a request that ends in an error is removed again; otherwise it stays in the bucket |
| UploadMiddleware.ErrorAnswer | middlewares/multer.js:115-128 | every multer error gives 400: `LIMIT_UNEXPECTED_FILE` with the field's "Only one … file is allowed", any other error with its message or 'File upload error' |
| UploadMiddleware.Callback | middlewares/multer.js:114-142 | an error is answered and leaves `req` unchanged; otherwise `next` is called exactly when there is no file or presigning succeeds; `req.file.presignedUrl` is the presigned link of the key with a 3600 s lifetime; otherwise the answer is 500 'Failed to generate pre-signed URL' |
| UploadMiddleware.RunCallback | middlewares/multer.js:114-142 | the callback, run statement by statement on `req`, answers and updates `req.body` and `req.file` as `Callback` says |
| UploadMiddleware.Upload | middlewares/multer.js:107-143 | a wrapper run on a request leaves the answer, `req` and the bucket as `UploadStep` says (multer, then the callback) |
| UploadMiddleware.ScanAfterText | middlewares/multer.js:108-112 | text fields before a part only add to the body that multer carries on with |
| UploadMiddleware.ScanFilePart | middlewares/multer.js:108-112 | multer reads past a file part only when it keeps the file |
| UploadMiddleware.ReceiveText | middlewares/multer.js:108-112 | a body of text fields only is read whole, with no file and no error |
| UploadMiddleware.ReceiveStopsAtFile | middlewares/multer.js:108-112 | the first file part after the text fields decides alone when multer stops at it |
| UploadMiddleware.ReceiveSingleFile | middlewares/multer.js:108-112 | an acceptable file among text fields is kept under the key that the fields sent before it give, and every field is read |
| UploadMiddleware.ReceiveSecondFile | middlewares/multer.js:108-112 | a second file after an acceptable one stops multer with `LIMIT_UNEXPECTED_FILE` |
| UploadMiddleware.WrapperConfiguration | middlewares/multer.js:108-112 | each wrapper allows 5242880 bytes and one file under `logo`, `profile_image`, `logo` or `picture` (also lines 147-151, 186-190 and 225-229), names objects with its collection's key and records them at their object URL |
| UploadMiddleware.NotMultipartIsPassedOn | middlewares/multer.js:141 | a request that is not multipart is passed on unchanged |
| UploadMiddleware.NoFileIsPassedOn | middlewares/multer.js:129-141 | a body without a file is passed on with its fields and no file, and the bucket is untouched |
| UploadMiddleware.WrongFieldRefused | middlewares/multer.js:115-121 | a file under another field is answered with 400 and the field's "Only one … file is allowed"; nothing changes |
| UploadMiddleware.FilteredFileRefused | middlewares/multer.js:122-128 | a file the filter refuses gets 400 with the filter's message and is never stored |
| UploadMiddleware.OversizedFileRefused | middlewares/multer.js:110-128 | a file over 5 MB gets 400 'File too large', and any object written for it is removed |
| UploadMiddleware.SingleFileUploaded | middlewares/multer.js:129-141 | one acceptable file: its object is in the bucket under its key and `req.file` records its URL; the request is passed on with the presigned link, or answered with 500 when presigning fails |
| UploadMiddleware.SecondFileRefused | middlewares/multer.js:115-121 | a second file is answered with 400 "Only one … file is allowed", and the first file's object is removed |
| UploadMiddleware.UploadOutcomes | middlewares/multer.js:114-142 | for any body: 400 exactly when multer failed, and then `req` is unchanged and no object is added; on `next`, only the uploaded object is added and `req.file` holds a presigned link exactly when a file was uploaded |
| UploadMiddleware.ObjectKeyHasNoDotSegments | middlewares/multer.js:40-51 | a key built by the storage `key` callback has no `.` or `..` segment, given a file name without `/` |
| UploadMiddleware.UploadedUrlLeadsToKey | middlewares/multer.js:40-51 | for a plain DNS host name and a file name without `/`, the URL recorded for an upload leads `getS3KeyFromUrl` back to the key it was stored under |
| SoftDelete.LiveUpTo | modules/brand/brandRepository.js:58-63 | the listing holds exactly the live rows, each once, in id order |
| SoftDelete.ListingIsFind | modules/brand/brandRepository.js:58-71 | a row is listed by `findAll` exactly when `findById` finds it |
| SoftDelete.ListingHasDistinctIds | modules/brand/brandRepository.js:58-63 | `findAll` lists no row twice |
| SoftDelete.Release | modules/brand/brandRepository.js:14-33 | `deleteS3File(getS3KeyFromUrl(url))` removes nothing for a null or empty URL, and never adds an object |
| SoftDelete.CreateAddsLiveRow | modules/brand/brandRepository.js:35-56 | create adds one live row under a fresh id, with the given columns, the file URL (null when empty) and the creation time; no other row and no object changes |
| SoftDelete.CreateAppendsToListing | modules/brand/brandRepository.js:35-63 | the created row is listed after every row listed before it |
| SoftDelete.FailedUpdateChangesNothing | modules/brand/brandRepository.js:78-82 | an update that fails changes neither the table nor the bucket, and a missing or soft-deleted id is 'Not found' |
| SoftDelete.UpdateRewritesRow | modules/brand/brandRepository.js:90-99 | a successful update rewrites the columns, the file URL (null when empty) and `updated_at`; it keeps the id, `created_at` and `deleted_at`, and leaves every other row alone |
| SoftDelete.UpdateReleasesOldObject | modules/brand/brandRepository.js:84-88 | the old object leaves the bucket exactly when a new file is supplied and an old one exists; otherwise the bucket is unchanged |
| SoftDelete.UpdateKeepsNewObject | modules/brand/brandRepository.js:84-88 | the object just uploaded stays in the bucket unless it has the old object's key |
| SoftDelete.UpdateWithoutFileOrphansObject | modules/brand/brandRepository.js:85-93 | an update without a file empties the URL column and leaves the old object in the bucket |
| SoftDelete.DeleteSoftDeletes | modules/brand/brandRepository.js:108-134 | delete sets `deleted_at`, releases the object, returns true; afterwards the row is neither found nor listed and a second delete is 'Not found'; a failure changes nothing |
| SoftDelete.DeleteReleasesUploadedObject | modules/brand/brandRepository.js:119-123 | a row recorded at its object URL (plain host, key without dot segments) can always be deleted, and exactly that object leaves the bucket |
| SoftDelete.UnparsableUrlBlocksDeleteAndUpdate | modules/brand/brandRepository.js:84-88 | as written, a live row whose URL column does not parse can be neither deleted nor given a new file: both fail with 'Invalid URL' and change nothing |
| SoftDelete.ReleaseAsDocumented | modules/organization/organizationRepository.js:14-18 | with the key read as documented, an unparsable URL releases nothing, and every other URL releases what the code releases |
| SoftDelete.DeleteAsDocumentedSkipsUnparsableUrl | modules/brand/brandRepository.js:108-134 | with the key read as documented, a live row whose URL does not parse is soft-deleted with the bucket untouched; every other delete is the code's |
| SoftDelete.BareFileNameBlocksDelete | modules/brand/brandRepository.js:119-123 | a live row whose URL column is `logo.png`: as written its delete fails with 'Invalid URL', as documented it succeeds |
| SoftDelete.Table.ReleaseObject | modules/brand/brandRepository.js:86-87 | removes the object the URL refers to, or returns the error and changes nothing |
| SoftDelete.Table.Insert | modules/brand/brandRepository.js:40-49 | the insert and read-back, with the result and new state of `CreateStep` |
| SoftDelete.Table.Update | modules/brand/brandRepository.js:73-106 | the check, the conditional object delete and the row update, with the result and new state of `UpdateStep` |
| SoftDelete.Table.Delete | modules/brand/brandRepository.js:108-134 | the check, the object delete and the soft delete, with the result and new state of `DeleteStep` |
| BrandRepository.Columns | modules/brand/brandRepository.js:42 | a brand keeps its name, and its website exactly when it is non-empty |
| BrandRepository.CreateBrand | modules/brand/brandRepository.js:35-56 | `createBrand` is the create step on the brand table |
| BrandRepository.UpdateBrand | modules/brand/brandRepository.js:73-106 | `updateBrand` is the update step with the brand's columns |
| BrandRepository.DeleteBrand | modules/brand/brandRepository.js:108-134 | `deleteBrand` is the delete step |
| InstrumentsRepository.CreateInstrument | modules/instruments/instrumentsRepository.js:35-56 | `createInstrument` is the create step, with number, amount and date as given and the picture URL (null when empty) |
| InstrumentsRepository.UpdateInstrument | modules/instruments/instrumentsRepository.js:73-106 | `updateInstrument` is the update step with exactly those columns |
| InstrumentsRepository.DeleteInstrument | modules/instruments/instrumentsRepository.js:108-134 | `deleteInstrument` is the delete step |
| OrganizationRepository.Columns | modules/organization/organizationRepository.js:58 | an organization keeps its name, and keeps each of website, address, vendor, admin and banking id, as the body sent it, exactly when it is truthy |
| OrganizationRepository.ColumnsKeepTextZero | modules/organization/organizationRepository.js:58 | the text "0" of a multipart body is stored, while the number 0 becomes null |
| OrganizationRepository.CreateOrganization | modules/organization/organizationRepository.js:51-72 | `createOrganization` is the create step, with no check of any reference |
| OrganizationRepository.UpdateOrganization | modules/organization/organizationRepository.js:89-122 | `updateOrganization` is the update step, overwriting all the columns |
| OrganizationRepository.DeleteOrganization | modules/organization/organizationRepository.js:124-150 | `deleteOrganization` is the delete step |
| UsersRepository.View | modules/users/usersRepository.js:59-62 | a selected row keeps every column; the password appears exactly when it is selected |
| UsersRepository.Views | modules/users/usersRepository.js:227-228 | every row of a result set, in order, with the selected columns |
| UsersRepository.ReferenceError | modules/users/usersRepository.js:41-52 | 'Invalid role_id' exactly when the role is absent or soft-deleted; 'Invalid banking_id' exactly when the role is valid and a truthy banking id is absent or soft-deleted |
| UsersRepository.BankingCheckFollowsTruthiness | modules/users/usersRepository.js:46-52 | a banking id sent as the text "0" is truthy and checked; the number 0 is not checked and is stored as null |
| UsersRepository.FindAllUsers | modules/users/usersRepository.js:73-76 | `SELECT *`: every live user, in order, with the password |
| UsersRepository.FindUserById | modules/users/usersRepository.js:78-84 | the live user without the password, or null exactly when there is none |
| UsersRepository.Filter | modules/users/usersRepository.js:223-227 | exactly the rows whose username matches, by equality or by containment |
| UsersRepository.CreateUserChecksThenHashes | modules/users/usersRepository.js:36-71 | `createUser` fails, storing nothing, exactly when a reference check fails; otherwise the new row holds the digest of the password, and the row is returned without it; only `findAllUsers` shows it |
| UsersRepository.UpdateUserCheckOrder | modules/users/usersRepository.js:91-107 | `updateUser` checks not-found, then the role, then the banking id; every failure changes nothing |
| UsersRepository.UpdateUserAsWrittenFailsWithoutPassword | modules/users/usersRepository.js:110-119 | as written, an update without a password fails with the driver's `undefined` error and keeps the row, but the replaced image object is already gone; the intended version succeeds and keeps the digest |
| UsersRepository.UpdateUserPasswordAndImage | modules/users/usersRepository.js:110-119 | the digest is kept when no password is given and replaced otherwise; the old image goes exactly when a new one is given and an old one exists; `last_login` and `created_at` are kept |
| UsersRepository.UpdateLastLoginChangesOnlyLastLogin | modules/users/usersRepository.js:134-160 | `updateLastLogin` changes `last_login` and nothing else, not even `updated_at`; a missing or deleted user is 'Not found' |
| UsersRepository.UpdateUserPasswordChangesOnlyPassword | modules/users/usersRepository.js:190-217 | `updateUserPassword` changes the digest and `updated_at` only; a missing or deleted user is 'Not found' |
| UsersRepository.ActivateDeactivateActsOnDeletedRows | modules/users/usersRepository.js:231-259 | fails with 'User not found' only for an id that does not exist; sets `deleted_at` to null or to `now`, touches `updated_at` and keeps the image object |
| UsersRepository.DeleteThenActivate | modules/users/usersRepository.js:236-246 | a user deleted by `deleteUser` is found again, with the same columns, after activation |
| UsersRepository.FindUserByUsernameMatches | modules/users/usersRepository.js:219-229 | returns exactly the live users whose username matches, with the password exactly when `includePassword` |
| UsersRepository.CreateUser | modules/users/usersRepository.js:36-71 | the checks, then the insert, with the result and new state of `CreateUserStep` |
| UsersRepository.UpdateUser | modules/users/usersRepository.js:86-132 | the checks, the conditional image delete and the `COALESCE` update, as `UpdateUserStep` says |
| UsersRepository.UpdateLastLogin | modules/users/usersRepository.js:134-160 | as `UpdateLastLoginStep` says |
| UsersRepository.DeleteUser | modules/users/usersRepository.js:162-188 | the delete step on the users table |
| UsersRepository.UpdateUserPassword | modules/users/usersRepository.js:190-217 | as `UpdateUserPasswordStep` says |
| UsersRepository.ActivateDeactivateUser | modules/users/usersRepository.js:231-259 | as `ActivateDeactivateStep` says |
| ServiceShaping.ParseId | modules/instruments/instrumentsService.js:45-48 | a parsed id is positive and is what `parseInt` reads; every other id is refused with 400 and the service's message |
| ServiceShaping.ParseIdOfDecimal | modules/instruments/instrumentsService.js:45-48 | a positive decimal, optionally after white space and `+` and followed by anything but a digit, is the id; zero and negative numbers are refused |
| ServiceShaping.ParseIdAccepts | modules/instruments/instrumentsService.js:45-48 | an id is accepted exactly when `parseInt` gives a positive number |
| ServiceShaping.ParseIdStopsAtLetter | modules/instruments/instrumentsService.js:45 | `"12abc"` is the id 12 |
| ServiceShaping.Enrich | modules/instruments/instrumentsService.js:53-59 | the record is unchanged; it gets a link exactly when its URL column is non-empty, and that link is the one presigned for the key stored in the URL, with a 3600 s lifetime |
| ServiceShaping.EnrichSignsStoredKey | modules/instruments/instrumentsService.js:53-58 | a record whose object is recorded at its object URL gets the link presigned for that object's key |
| ServiceShaping.EnrichAll | modules/instruments/instrumentsService.js:27-36 | `Promise.all` succeeds exactly when every record can be enriched; the list then keeps length and order; otherwise one record's error is propagated |
| ServiceShaping.EnrichAllKeepsOrder | modules/instruments/instrumentsService.js:27-36 | each listed record keeps its place and has a link exactly when it refers to an object |
| ServiceShaping.StoredUrl | modules/instruments/instrumentsService.js:72 | `file ? file.location : null` |
| ServiceShaping.AttachedLink | modules/instruments/instrumentsService.js:73 | `file ? file.presignedUrl : null` |
| InstrumentsService.InvalidIdRefusedFirst | modules/instruments/instrumentsService.js:44-48 | an id that reads as NaN or as a number ≤ 0 is refused with 400 'Invalid instrument ID' by get, update (86-89) and delete (111-114), with no change |
| InstrumentsService.MissingInstrument | modules/instruments/instrumentsService.js:49-52 | a valid id with no live row gives 404 for get and delete (115-118); update fails with the repository's 'Not found', so its 404 (98-100) is never given |
| InstrumentsService.GetInstrumentByIdEnriches | modules/instruments/instrumentsService.js:44-65 | a found instrument is answered with 200, under the parsed id, with a link exactly when it has a picture |
| InstrumentsService.GetAllInstrumentsEnriches | modules/instruments/instrumentsService.js:25-42 | 200 with every live instrument in order, each with a link exactly when it has a picture |
| InstrumentsService.InvalidBodyRefused | modules/instruments/instrumentsService.js:68-69 | a body the validator refuses gets 400 with its first message, on create and on update (90-91), and the repository is not used |
| InstrumentsService.CreateInstrumentAnswers | modules/instruments/instrumentsService.js:67-83 | 201 with the stored row, which records `file.location` or null, and with `file.presignedUrl` or null as its link |
| InstrumentsService.UpdateInstrumentAnswers | modules/instruments/instrumentsService.js:85-108 | 200 with the rewritten row under the parsed id and `file.presignedUrl` or null as its link; without a file the picture column becomes null |
| InstrumentsService.DeleteInstrumentAnswers | modules/instruments/instrumentsService.js:110-130 | 200 'Instrument soft deleted successfully'; afterwards the instrument is not found |
| InstrumentsService.CreateInstrument | modules/instruments/instrumentsService.js:67-83 | the validation and then the repository call, with the answer and new state of `CreateInstrumentStep` |
| InstrumentsService.UpdateInstrument | modules/instruments/instrumentsService.js:85-108 | the id check, the validation and the repository call, as `UpdateInstrumentStep` says |
| InstrumentsService.DeleteInstrument | modules/instruments/instrumentsService.js:110-130 | the id check, the existence check and the repository delete, as `DeleteInstrumentStep` says |
| OrganizationService.InvalidIdRefusedFirst | modules/organization/organizationService.js:44-48 | an id that reads as NaN or as a number ≤ 0 is refused with 400 'Invalid organization ID' by get, update (94-97) and delete (128-131), with no change |
| OrganizationService.MissingOrganization | modules/organization/organizationService.js:49-52 | a valid id with no live row gives 404 for get; update and delete fail with the repository's 'Not found', so their 404s (115-117, 133-135) are never given |
| OrganizationService.GetOrganizationByIdEnriches | modules/organization/organizationService.js:44-65 | a found organization is answered with 200, under the parsed id, with a link exactly when it has a logo |
| OrganizationService.GetAllOrganizationsEnriches | modules/organization/organizationService.js:25-42 | 200 with every live organization in order, each with a link exactly when it has a logo |
| OrganizationService.InvalidBodyRefused | modules/organization/organizationService.js:68-69 | a body the validator refuses gets 400 with its first message, on create and on update (98-99), and the repository is not used |
| OrganizationService.CreateOrganizationAnswers | modules/organization/organizationService.js:67-91 | 201 with the stored row, whose optional columns are null when falsy and which records `file.location` or null, and with `file.presignedUrl` or null as its link |
| OrganizationService.UpdateOrganizationAnswers | modules/organization/organizationService.js:93-125 | 200 with the rewritten row and `file.presignedUrl` or null as its link; without a file the logo column becomes null and the old logo object stays in the bucket |
| OrganizationService.DeleteOrganizationAnswers | modules/organization/organizationService.js:127-141 | 200 'Organization soft deleted successfully'; afterwards the organization is not found |
| OrganizationService.CreateOrganization | modules/organization/organizationService.js:67-91 | the validation and then the repository call, as `CreateOrganizationStep` says |
| OrganizationService.UpdateOrganization | modules/organization/organizationService.js:93-125 | the id check, the validation and the repository call, as `UpdateOrganizationStep` says |
| OrganizationService.DeleteOrganization | modules/organization/organizationService.js:127-141 | the id check and the repository delete, as `DeleteOrganizationStep` says |

## Left out

- The database connection and its transactions are not modelled, and neither are commit, rollback or the SQL text. Each operation is one atomic step: a check that fails leaves the state as it was. The creation time and `CURRENT_TIMESTAMP` are the `now` parameter.
- The bucket delete and the commit are not atomic. A database failure after the object delete leaves a row that refers to a removed object; the model has no other database failure than the one under "## Findings", which shows it for `updateUser`.
- A failing `DeleteObjectCommand` is not modelled. `S3Objects.Bucket.DeleteFile` always succeeds, so the 'Failed to delete file from S3' error is not modelled either.
- The S3 client, its credentials and the bucket name are not modelled. The object store is a set of keys, and its URL host is the `host` parameter.
- `getSignedUrl` is the `Presigner` parameter, a function of the key and the lifetime (always 3600 s). The link's signature, its expiry and its dependence on the clock and the credentials are not modelled.
- The Joi validators are the `Validator` parameter, which gives the first detail's message. The validators' rules are not part of this model.
- `console.error` logging is left out. It has no effect on results.
- `bcrypt.hash` is the injective `Bcrypt` constructor. It uses no salt and no cost factor, and two hashes of the same password are equal here.
- `UsersRepository.Matches`: SQL `username = ?` is modelled as exact string equality and `LIKE` as case-sensitive substring containment. Both follow the column's collation in MySQL, which is case- and accent-insensitive by default; collations and `%` or `_` inside the pattern are left out.
- `UsersRepository.UserInput`: every bound value of a user is modelled as present: `username` and `email` as text, `phone` and `address` as text or JSON `null`, `roleId` as an integer or `null`, `bankingId` as a number, text or `null`, and the id as an integer. A field missing from the request body is `undefined`, which mysql2 refuses as a bind parameter (as the password is under "## Findings"), and a missing password makes `bcrypt.hash` throw in `createUser` and `updateUserPassword` (modules/users/usersRepository.js:54, 200). None of these failures is modelled.
- `UsersRepository.ReferenceError`: the banking lookup `WHERE id = ?` is the set `liveBanking` of body values it finds a live row for. MySQL's conversion of a text or fractional value to a number for that comparison is not modelled. The role id is an integer or `null` here, so a role id sent as text, which the role lookup `WHERE id = ?` would convert to a number in the same way, cannot be expressed.
- `Common.ScalarOrNull`: a JSON number is a `real`. NaN, infinities and `-0` cannot come from a JSON body and are not modelled; a body field that is an object, array or boolean is not modelled either.
- `JsParseInt.ParseInt`: JavaScript's `parseInt` returns a double. Above 2^53 its digits are rounded to the nearest double, and a long enough run of digits gives `Infinity`; the model returns the exact integer. Whether an id is refused (NaN, or not positive) is the same in both, but the id handed to the repository differs above 2^53.
- `JsParseInt.ParseDigitsOfRun`: the value of a digit run is exact, where JavaScript rounds it to a double above 2^53 (see `JsParseInt.ParseInt`).
- `JsParseInt.ParseIntOfUnsigned`: `n` is read back exactly for every `n`; JavaScript does so only below 2^53 and rounds above.
- `JsParseInt.ParseIntOfDecimal`: `n` or `-n` is read back exactly for every `n`; JavaScript does so only below 2^53 and rounds above.
- `ServiceShaping.ParseId`: the accepted id is the exact integer; above 2^53 JavaScript hands the repository the rounded double, or `Infinity`, which is not modelled.
- `ServiceShaping.ParseIdOfDecimal`: a positive decimal is the id exactly for every value; JavaScript's id equals it only below 2^53.
- `SoftDelete.LiveUpTo`: the listing is in id order. Neither the `findAll` queries nor `findUserByUsername` have an `ORDER BY`, so the order the database returns is not promised; the model fixes id order, and `UsersRepository.FindUserByUsernameMatches` inherits it.
- Multer and multer-s3 are modelled from what they do, not from their source, which is not part of this model. This covers how multer counts parts, limits the size, calls the filter and the storage, and removes the stored file of a failed request. Streaming is left out, as are busboy's limits and a file part without a file name.
- A repeated text field keeps its last value. Multer itself (its append-field step, not busboy, which reports each field once) turns a repeated field into an array; then `req.body.name` is truthy and `sanitizeFileName` calls `.toLowerCase()` on an array, which throws inside the storage `key` callback. Neither the array nor that failure is modelled.
- The storage's `metadata` callback and its content type are left out. They do not affect keys or answers.
- On an upload error, `req.body` and `req.file` are modelled as unchanged. The fields multer may already have added to `req.body` are not modelled, because the wrapper answers without reading them.
- Two uploads with the same key, at the same millisecond with the same name, overwrite one object. The model treats keys as a set and does not track object contents.
- `S3Objects.KeyFromObjectUrl`: promised only for plain DNS host names and for keys without `.` or `..` segments. `new URL` treats `\` as `/`, rejects some characters in a host, decodes punycode labels, reads a numeric last label as IPv4, and resolves dot segments away; keys built by the upload middleware never have dot segments (UploadMiddleware.ObjectKeyHasNoDotSegments).
- `UploadMiddleware.UploadedUrlLeadsToKey`: promised for file names without `/`. busboy, which multer uses, keeps only the base name of the client's file name unless `preservePath` is set; busboy is not part of this model.
- `S3Objects.Pathname`: only `scheme://host[path][?query][#fragment]` with a non-empty host is parsed, which differs from `new URL` in both directions. The model refuses text that `new URL` accepts: `mailto:x`, `https:host/k` and `https:///k` (repaired slashes of a special scheme), and a URL with leading or trailing spaces. The model gives a key where `new URL` throws: a host with a space, such as `https://a b/k`, or a port that is not a number, such as `https://h:abc/k`. The model keeps tabs and newlines, which `new URL` removes, and gives `/` as the pathname of `foo://h`, where `new URL` gives the empty string. Recorded URLs come from multer-s3's `location`, which has the form the model parses.
- `S3Objects.KeyFromUrl`: a simplified WHATWG URL parser for `scheme://host[path][?query][#fragment]`. It does not model ports, credentials, dot segments or non-ASCII hosts.
- `S3Objects.EncodeChar`: a key is a sequence of Unicode scalar values. A JavaScript string may hold a lone surrogate, for which `encodeURIComponent` throws; such keys are not modelled.
- `Common.Lower`: `toLowerCase` is ASCII-only. Non-ASCII letters, such as the Kelvin sign that lowercases to `k`, are kept as they are.
- `UsersRepository.ActivateDeactivateUser` and `UsersRepository.FindUserByUsername`: `isActive`, `exactMatch` and `includePassword` are plain booleans. The code tests them for JavaScript truthiness, so the text "false" activates a user, and `exactMatch` and `includePassword` default to false when omitted; neither is modelled.
- MySQL's automatic `ON UPDATE` timestamps are not modelled. Only the columns each statement sets are changed, and `updateLastLogin` leaves `updated_at` as it was.
- The `ApiResponse` and `ApiError` envelopes are modelled as (status, message, payload) values. `getAll` returns the list itself rather than `{ instruments: [...] }`. JSON serialisation and the error handler are left out.
- `Promise.all` concurrency in enrichment is modelled as a sequential map. When several records fail, the model propagates the error of the first one.
- `modules/index.js` and `server.js`, Express routing and bootstrap, are not part of this model.

## Findings

| source | as written | input that shows it | evidently intended | confidence | as-written member | corrected member |
|---|---|---|---|---|---|---|
| modules/users/usersRepository.js:115-119 | without a password `hashedPassword` is `undefined`, and mysql2 refuses an `undefined` bind parameter with a TypeError when the `UPDATE` runs, after the old profile image was deleted at lines 110-113 | `updateUser` of a live user with a valid role, a new profile image, an old one, and no password | `null`, so that `COALESCE(?, password)` keeps the stored digest and the update succeeds | high; not executed | UsersRepository.UpdateUserAsWrittenFailsWithoutPassword | UsersRepository.UpdateUserPasswordAndImage |
| modules/organization/organizationRepository.js:18-28 | documented to return null for an invalid URL, but `new URL(url)` throws 'Invalid URL', so a delete or a replacing update of a row whose URL column does not parse always fails | `deleteBrand` of a live brand whose `logo` column is `logo.png` (a value not written through this API) | null, so that the row is soft-deleted and nothing is removed from the bucket | high; not executed | SoftDelete.BareFileNameBlocksDelete | SoftDelete.DeleteAsDocumentedSkipsUnparsableUrl |
