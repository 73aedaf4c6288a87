# Reconciliation core of mysql-files-to-s3

The job takes gzip-compressed RTF documents stored in database rows and reconciles three sets:

- the rows;
- the artifacts already in a remote object store (`<id>.pdf` under a prefix);
- the files staged in a local folder.

Each run tries to stage every row whose artifact is not yet remote as `<folder>/<id>.rtf`; a row whose decode, clean or write fails is skipped. When something was staged, it converts the folder to PDF and drops the `.rtf` files. It then puts `<folder>/<id>.pdf` at `<prefix>/<id>.pdf` for each row whose `<id>.pdf` is not listed remotely and whose local PDF exists. A row whose put succeeds and whose download URL is then returned yields a record with a keyed hash of the row's verification code and the encrypted URL; when the URL is rejected, the object stays stored without a record. The run then drops the `.pdf` files. Last, unless an earlier stage failed or never finished, it runs retention over the listing taken at start and hands both results to the result sink. Retention asks the store to delete every listed file that is outdated and is not the artifact of a current row. Only the deletions that succeed take effect, and of those only the ones whose name matches the id pattern report an id. An alternative S3 backend builds its client settings and listing in `s3Data`.

The model has one module per source file:

- `Days` models `daysBetweenDates`.
- `Retention` models `FileRetentionProcessor` and `remoteFileRetention`.
- `Staging` models `saveLocalRtfFiles`.
- `Upload` models `uploadFiles`.
- `S3Listing` models `s3Data`.
- `Driver` models the stage sequence of `main`.

Three further modules support them:

- `Shared` holds rows, listings and the `<id>.<ext>` naming.
- `Storage` holds the two stores as classes: a local folder and a remote store, both maps from path to bytes.
- `Wrappers` holds the usual option and result types.

How the model treats the external world:

- **Failures as inputs.** Most operations that can fail in the real system take their outcome as an input; the exceptions are listed under "## Left out". The inputs cover ungzip, cleanData, writes, puts, deletes, metadata fetches, download URLs, URL parsing and date parsing.
- **Uninterpreted functions.** `encrypt` and the converter are uninterpreted.
- **Time.** Timestamps are integer milliseconds, and `Date.now()` is one `now` parameter per run.

Each stage of the source is a method proved against a specification function (the loops through their loop invariants):

- **Staging.** `StagedCount` and `StagedFiles` are the specification.
- **Upload.** `Uploads` and `PutObjects` are the specification.
- **Retention.** `ProcessAll`, `KeepDeletedIds`, `RetentionIds` and `DeletedPaths` are the specification.
- **`main`.** The specification is `Driver.Run`, stage by stage.

The properties the source promises are lemmas about those functions.

Behaviour of the code worth knowing:

- Names that do not match the id pattern `^[A-Za-z0-9_]+\.(pdf|rtf)$` are still deleted when outdated and not a current row's artifact; they are only left out of the report (`Retention.UnmatchedNameDeletedUnreported`).
- Retention reports ids (`"3"`), not names (`"3.pdf"`).
- Staging and upload report their result only once the last row has been visited. With an empty row list, `main` never gets past staging, and nothing is reported (`Driver.EmptyRowsNeverResolve`).
- Uploads run concurrently in the code. The model visits rows in order and states nothing about the order of the upload records beyond what a sequential visit gives.
- Only the `.pdf` name of a row is protected from retention. An outdated `<id>.rtf` in the store whose delete succeeds is removed, and its id reported when the id is a `[A-Za-z0-9_]+` word, even when its row is current (`Retention.RtfOfCurrentRowNotProtected`).

## Model

| member | source | states |
|---|---|---|
| Days.DaysBetweenDates | src/utils/daysBetweenDates.ts:1-3 | the result `r` brackets the difference: `r * 86400000 <= date1 - date2 < (r + 1) * 86400000` (floor division by one day) |
| Days.DaysUnique | src/utils/daysBetweenDates.ts:2 | any `q` that brackets the difference that way is the result |
| Days.LessThanADayIsZero | src/utils/daysBetweenDates.ts:2 | a non-negative difference shorter than one day, including equal instants, gives 0 |
| Days.EarlierIsNegative | src/utils/daysBetweenDates.ts:2 | `date1 < date2` gives a negative count, and `date1` up to one day earlier gives exactly -1 (floor, not truncation) |
| Days.DaysMonotone | src/utils/daysBetweenDates.ts:2 | a later `date1` or an earlier `date2` never gives fewer days |
| Days.AddOneDay | src/utils/daysBetweenDates.ts:2 | adding 86400000 ms to `date1` adds exactly one day |
| Days.AtLeastDaysIff | src/utils/daysBetweenDates.ts:2 | at least `k` days holds iff the difference is at least `k * 86400000` ms |
| Shared.FileNames | src/firebaseData.ts:48 | the names have the listing's length, and name `i` is the name of item `i` |
| Shared.PdfNameParts | src/remoteFilesRetention.ts:30 | `<id>.pdf` is the id followed by exactly `.pdf` |
| Shared.RtfNameParts | src/saveLocalRtfFiles.ts:27 | `<id>.rtf` is the id followed by exactly `.rtf` |
| Shared.PathInParts | src/uploadFiles.ts:35 | `<folder>/<name>` is the folder, one `/`, then the name |
| Shared.RtfNameNeverProtected | src/remoteFilesRetention.ts:30 | no `<id>.rtf` name is ever in the protected set of the rows' `.pdf` names |
| Shared.PathInInjective | src/uploadFiles.ts:42 | distinct names give distinct object paths under one prefix |
| Shared.PdfNameInjective | src/remoteFilesRetention.ts:30 | distinct ids give distinct artifact names |
| Shared.PdfNameIsNotRtfName | src/remoteFilesRetention.ts:30 | no `<a>.pdf` equals any `<b>.rtf` |
| Shared.MissingRows | src/saveLocalRtfFiles.ts:26 | a row is kept iff its `<id>.pdf` is not among the remote names; never longer than the rows |
| Storage.LocalFolder.WriteFile | src/saveLocalRtfFiles.ts:32 | a successful write sets the path to the data; a failed one changes nothing |
| Storage.LocalFolder.AddConverted | src/index.ts:64 | the converter's output is added to the folder |
| Storage.LocalFolder.DeleteLocalFiles | src/index.ts:72 | the folder becomes `WithoutExtension(old folder, folder, ext)` |
| Storage.RemoteStore.Put | src/uploadFiles.ts:43 | a successful put stores the object at the path; a failed one changes nothing |
| Storage.RemoteStore.Delete | src/remoteFilesRetention.ts:82 | a successful delete removes exactly the path; a failed one changes nothing |
| Retention.NewProcessor | src/remoteFilesRetention.ts:25-33 | keeps the retention and prefix, and protects a name iff it is `<id>.pdf` of some row |
| Retention.ExtractFileId | src/remoteFilesRetention.ts:50-53 | a returned id is a non-empty word of letters, digits and `_`, and the name is that id plus `.pdf` or `.rtf` |
| Retention.ExtractFileIdRoundTrip | src/remoteFilesRetention.ts:50-53 | for every such id, the id of `<id>.pdf` and of `<id>.rtf` is the id |
| Retention.ExtractFileIdMatches | src/remoteFilesRetention.ts:51-52 | an id is returned iff the name matches the pattern |
| Retention.DatePart | src/remoteFilesRetention.ts:63 | the result is a prefix of `updated` with no `T`, followed in `updated` by a `T` when shorter |
| Retention.DatePartBeforeFirstT | src/remoteFilesRetention.ts:63 | when the first `T` is at position `k`, the date part is the first `k` characters |
| Retention.UpdatedInstant | src/remoteFilesRetention.ts:59-66 | an instant is recovered iff the fetch succeeded with an `updated` whose date part before `T` is non-empty and parses; it is the parsed date part |
| Retention.CheckFileAge | src/remoteFilesRetention.ts:58-75 | outdated iff a modification instant was recovered and `now` is at least `retentionDays` days past it |
| Retention.UnknownAgeIsNotOutdated | src/remoteFilesRetention.ts:59-64 | a failed fetch, no metadata, no `updated` or an empty date part is never outdated |
| Retention.EvaluateDeletionCriteria | src/remoteFilesRetention.ts:38-45 | outdated iff a modification instant was recovered and the age is at least `retentionDays` days of ms; not-in-local iff the name is not protected |
| Retention.ProcessOutcome | src/remoteFilesRetention.ts:96-107 | an id is produced iff the file is outdated, not a current row's artifact, its delete succeeds and its name matches; it is then the extracted id |
| Retention.ProcessAll | src/remoteFilesRetention.ts:121-123 | one outcome per listed file, in listing order |
| Retention.KeepDeletedIds | src/remoteFilesRetention.ts:126 | never more ids than outcomes |
| Retention.KeepDeletedIdsMembers | src/remoteFilesRetention.ts:126 | an id is kept iff it is a non-empty outcome at some position |
| Retention.KeptPositions | src/remoteFilesRetention.ts:121-126 | the kept ids come from strictly increasing positions, so they are a subsequence in listing order |
| Retention.DeletedPaths | src/remoteFilesRetention.ts:80-107 | a path is deleted iff it is `<prefix>/<name>` of a file that should be deleted and whose delete succeeds |
| Retention.RowArtifactNeverDeleted | src/remoteFilesRetention.ts:30-44 | the `<prefix>/<id>.pdf` of a current row is never deleted, whatever its age |
| Retention.RetentionIdsExactly | src/remoteFilesRetention.ts:113-127 | an id is reported iff some listed file was deleted and its name yields that id |
| Retention.OutdatedOrphanReported | src/remoteFilesRetention.ts:96-126 | an outdated file with a matching name that is no row's artifact and whose delete succeeds has its id reported |
| Retention.RtfOfCurrentRowNotProtected | src/remoteFilesRetention.ts:30-42 | an outdated `<id>.rtf` of a current row whose delete succeeds and whose id is a `[A-Za-z0-9_]+` word is removed and the row's id is reported |
| Retention.UnmatchedNameDeletedUnreported | src/remoteFilesRetention.ts:86-103 | a deleted file whose name does not match the pattern is removed from the store but yields no id |
| Retention.KeepDeletedIdsAppend | src/remoteFilesRetention.ts:126 | filtering distributes over concatenation |
| Retention.ProcessAllAppend | src/remoteFilesRetention.ts:121-123 | the outcomes for `a + b` are those for `a` followed by those for `b` |
| Retention.RetentionIsPerFile | src/remoteFilesRetention.ts:121-126 | the ids for `a + b` are those for `a` followed by those for `b`; a file's failure affects no other file |
| Retention.DeleteFile | src/remoteFilesRetention.ts:80-91 | on success the object is removed and the extracted id returned; on failure nothing changes and null is returned |
| Retention.ProcessFile | src/remoteFilesRetention.ts:96-107 | returns `ProcessOutcome` and deletes the object exactly when it should be deleted and the delete succeeds |
| Retention.RemoteFileRetention | src/remoteFilesRetention.ts:113-127 | returns `RetentionIds` and removes exactly `DeletedPaths` from the store |
| Staging.StagedContent | src/saveLocalRtfFiles.ts:24-31 | content is produced only for a row whose `<id>.pdf` is not among the remote names |
| Staging.StagedCountIsStagedRows | src/saveLocalRtfFiles.ts:29-33 | the count is the number of rows for which ungzip, clean and write all succeeded |
| Staging.StagedCountAtMostMissing | src/saveLocalRtfFiles.ts:21-33 | the count is at most the number of rows lacking a remote PDF |
| Staging.NothingStagedWhenAllRemote | src/saveLocalRtfFiles.ts:24-26 | when every row has its remote PDF, the count is 0 and the folder is unchanged |
| Staging.StagedRowsWritten | src/saveLocalRtfFiles.ts:27-32 | every staged row's `<folder>/<id>.rtf` is present afterwards, and no file disappears |
| Staging.StagedRowContent | src/saveLocalRtfFiles.ts:29-32 | a staged row whose path no later staged row rewrites holds `cleanData(ungzip(row.file))` afterwards |
| Staging.OnlyMissingRowsWritten | src/saveLocalRtfFiles.ts:24-32 | a path that is no missing row's `.rtf` path is left exactly as it was |
| Staging.StagedCountAppend | src/saveLocalRtfFiles.ts:34-41 | rows are counted independently: the count for `a + b` is the sum of the counts |
| Staging.SaveLocalRtfFiles | src/saveLocalRtfFiles.ts:15-53 | resolves to `StagedCount` once every row is visited, never for no rows; the folder becomes `StagedFiles` |
| Upload.UploadOutcome | src/uploadFiles.ts:34-50 | a record iff the PDF is not remote, the local PDF exists, the put succeeds and a URL is returned; its fields are the row id, the MD5 hash of the verification code and the AES-encrypted URL |
| Upload.UploadsExactly | src/uploadFiles.ts:37-59 | a record is in the result iff some row produced it |
| Upload.UploadsAtMostMissing | src/uploadFiles.ts:37-59 | at most one record per row lacking a remote PDF |
| Upload.NothingUploadedWhenAllRemote | src/uploadFiles.ts:34-38 | when every row is already remote, there is no record and the store is unchanged |
| Upload.OnlyMissingRowsPut | src/uploadFiles.ts:34-43 | a path that is no unlisted row's `<prefix>/<id>.pdf` keeps its presence and contents, so an already-remote row's object is never overwritten, whatever the other rows do |
| Upload.PutRowStored | src/uploadFiles.ts:38-43 | an unlisted row with a local PDF whose put succeeds has its `<prefix>/<id>.pdf` in the store, holding the bytes of `<folder>/<id>.pdf` |
| Upload.UploadsAppend | src/uploadFiles.ts:37-54 | the records for `a + b` are those for `a` then those for `b`; one row's failure affects no other row |
| Upload.UploadedObjectsStored | src/uploadFiles.ts:42-50 | every record's row has its `<prefix>/<id>.pdf` in the store afterwards, holding the bytes of its `<folder>/<id>.pdf` |
| Upload.UploadFiles | src/uploadFiles.ts:22-62 | resolves to `Uploads` once every row is visited, never for no rows; the store becomes `PutObjects` |
| S3Listing.DecimalValue | src/s3Data.ts:51 | the base-10 value of a digit string is below `10^length`, and its units digit is the last character |
| S3Listing.DecimalRoundTrip | src/s3Data.ts:51 | parsing in base 10 the decimal spelling of a port gives the port |
| S3Listing.ResolvePort | src/s3Data.ts:46-56 | a non-zero explicit port wins, else the URL's port in decimal, else 443 for `https:`, else 9000 |
| S3Listing.ClampRetention | src/s3Data.ts:68 | never above 7, always the input or 7, and the input when that is at most 7 |
| S3Listing.StripFolder | src/s3Data.ts:81 | a name without `<folder>/` is unchanged; otherwise the result is the name with its first occurrence of `<folder>/` cut out |
| S3Listing.StripFolderUnderFolder | src/s3Data.ts:81 | `<folder>/<rest>` becomes `rest` |
| S3Listing.ListedFiles | src/s3Data.ts:78-86 | every entry comes from a named object, and every named object contributes its stripped entry |
| S3Listing.Names | src/s3Data.ts:90 | same length as the files, name `i` is file `i`'s name |
| S3Listing.GetS3Data | src/s3Data.ts:34-110 | fails on an unparsable URI and on a stream error; on success: clamped retention, SSL iff `https:`, the port chain, the listed files and their names |
| Driver.ErrorAbortsBeforeStaging | src/index.ts:47-51 | no result or a truthy error fails the run with the folder and the store untouched |
| Driver.ReportedResults | src/index.ts:55-80 | the sink receives the retention result over all rows, and no uploads when nothing was staged |
| Driver.ConversionFailureSkipsRetention | src/index.ts:63-64 | a converter failure after staging fails the run before upload and retention; the store is untouched |
| Driver.StagedRunLeavesNoLocalArtifacts | src/index.ts:63-73 | after staging and conversion, the folder keeps exactly the staged and produced files that are not `.rtf` or `.pdf` files of the local folder |
| Driver.EmptyRowsNeverResolve | src/index.ts:53-61 | with no rows the run never reaches the sink and changes nothing |
| Driver.RerunStagesAndUploadsNothing | src/index.ts:53-80 | when every row is already remote, nothing is staged or uploaded and only retention changes the store |
| Driver.UploadedArtifactsSurviveRetention | src/index.ts:66-78 | every artifact uploaded in the run is still in the store at the end |
| Driver.ConvertFiles | src/index.ts:64 | a missing converter fails with its message; otherwise its output is added to the folder |
| Driver.RunJob | src/index.ts:47-83 | the outcome, folder and store are those `Run` gives stage by stage: staging, then convert, drop `.rtf`, upload and drop `.pdf` only when something was staged, then retention; the listing's names must be its items' names |

## Left out

- The conversion step is an input: either the converter is missing, or its output is a given set of files. The LibreOffice invocation and its error handling are not part of this model (src/convertFiles.ts).
- `encrypt` is an uninterpreted function. HMAC-MD5 and AES themselves are not modelled.
- Loading the database rows and setting up the Firebase listing are left out. Their outputs are inputs of the model (`QueryResult` and `FirebaseData`). `Driver.RunJob` requires `filesNames` to be `Shared.FileNames` of the listing, as src/firebaseData.ts:48 builds it; the lemmas about `Run` and the stages hold for any `filesNames`.
- Reading the configuration file, logging, the error handler singleton, the final "finished" log and `process.exit` are left out.
- `sendResults` is left out: the model ends with the two results handed to it (`Reported`), and its own failures are not modelled.
- Concurrency is left out. Rows and remote files are visited one at a time, in order, and a single `now` serves the whole retention pass. The model makes no claim about the order of upload records in the concurrent code.
- Floating point is left out. Timestamps are integers, and a date that does not parse (a NaN time) is an unknown age.
- `new URL(...)` and `new Date(...)` are parameters. `S3Listing.ResolvePort` requires the URL's port to be empty or decimal digits, as a URL parser guarantees.
- `ungzip`, `cleanData` and `getDownloadURL` may each fail, and each is an input. `fs.access` followed by `fs.readFile` is assumed to return the file's content when it exists and to fail otherwise (`Storage.LocalFolder.ReadFile`); a read that fails after a successful `fs.access` is not modelled.
- `deleteLocalFiles` is not part of this model. It is assumed to remove exactly the `.<ext>` files of the folder and keep everything else (`Storage.WithoutExtension`).
- The MinIO client object and the listing request are left out. `S3Listing.GetS3Data` takes the listed objects and the way the stream ends as inputs, and it returns the client's options.
- The S3 backend is not wired into the driver: `s3Data` is not called from `main`, whose remote data comes from Firebase, so the driver does not use it.
