/**
 * The job's main sequence: read the rows, stage the missing documents, and
 * only when something was staged convert, drop the `.rtf` files, upload and
 * drop the `.pdf` files; then, unless an earlier stage failed or never
 * finished, run retention over all rows and hand both results to the result sink.
 */
module Driver {
  import opened Wrappers
  import opened Shared
  import opened Storage
  import opened Staging
  import opened Upload
  import opened Retention

  /** What `getData(mysql)` resolves to: the rows (when there are any) and an error text. */
  datatype QueryResult = QueryResult(rows: Option<seq<Row>>, error: Option<string>)

  /** The external converter: missing (`convertFiles` throws this message), or the PDF files it produces. */
  datatype Conversion = ConverterMissing(message: string) | Converted(produced: map<string, Bytes>)

  /**
   * How a run ends: an error caught and logged, a stage that never resolves,
   * or the two results handed to `sendResults`.
   */
  datatype RunOutcome =
    | Failed(message: string)
    | NeverResolves
    | Reported(uploadedFiles: seq<UploadedFile>, remoteFilesDeleted: seq<string>)

  /** The outcome together with the final local folder and remote store. */
  datatype RunState = RunState(outcome: RunOutcome, files: map<string, Bytes>, objects: map<string, Bytes>)

  /** A JavaScript truthiness test on an optional string. */
  predicate Truthy(s: Option<string>)
  {
    s.Some? && s.value != ""
  }

  /** What one run does, stage by stage, to the outcome, the local folder and the remote store. */
  function Run(files: map<string, Bytes>, objects: map<string, Bytes>, remoteData: FirebaseData, mysqlData: Option<QueryResult>,
               localFolder: string, cryptoKey: string, staging: StagingEnv, conversion: Conversion, upload: UploadEnv,
               now: int, parseDate: string -> Option<int>): RunState
  {
    if mysqlData.None? then RunState(Failed("Failed to retrieve data from MySQL"), files, objects)
    else if Truthy(mysqlData.value.error) then RunState(Failed(mysqlData.value.error.value), files, objects)
    else if mysqlData.value.rows.None? then RunState(Failed("There is no data to work on!"), files, objects)
    else
      var rows := mysqlData.value.rows.value;
      if rows == [] then RunState(NeverResolves, files, objects)
      else
        var staged := StagedFiles(files, rows, localFolder, remoteData.filesNames, staging);
        var numLocalFiles := StagedCount(rows, localFolder, remoteData.filesNames, staging);
        var deletedPaths := DeletedPaths(NewProcessor(rows, remoteData.retention, remoteData.prefix), remoteData.files, now, parseDate);
        var remoteFilesDeleted := RetentionIds(rows, remoteData, now, parseDate);
        if numLocalFiles == 0 then
          RunState(Reported([], remoteFilesDeleted), staged, objects - deletedPaths)
        else
          match conversion
          case ConverterMissing(message) => RunState(Failed(message), staged, objects)
          case Converted(produced) =>
            var converted := WithoutExtension(staged + produced, localFolder, "rtf");
            var uploadedFiles := Uploads(rows, converted, localFolder, remoteData, cryptoKey, upload);
            var put := PutObjects(objects, rows, converted, localFolder, remoteData, upload);
            RunState(Reported(uploadedFiles, remoteFilesDeleted), WithoutExtension(converted, localFolder, "pdf"), put - deletedPaths)
  }

  // ---------------------------------------------------------------------------
  // Properties

  /** A missing result or a truthy error aborts the run before anything is staged or deleted. */
  lemma ErrorAbortsBeforeStaging(files: map<string, Bytes>, objects: map<string, Bytes>, remoteData: FirebaseData,
                                 mysqlData: Option<QueryResult>, localFolder: string, cryptoKey: string, staging: StagingEnv,
                                 conversion: Conversion, upload: UploadEnv, now: int, parseDate: string -> Option<int>)
    requires mysqlData.None? || Truthy(mysqlData.value.error)
    ensures var s := Run(files, objects, remoteData, mysqlData, localFolder, cryptoKey, staging, conversion, upload, now, parseDate);
      s.outcome.Failed? && s.files == files && s.objects == objects
  {
  }

  /** Nothing is uploaded unless staging wrote at least one file; retention always covers every row. */
  lemma ReportedResults(files: map<string, Bytes>, objects: map<string, Bytes>, remoteData: FirebaseData, rows: seq<Row>,
                        localFolder: string, cryptoKey: string, staging: StagingEnv, conversion: Conversion, upload: UploadEnv,
                        now: int, parseDate: string -> Option<int>)
    requires Run(files, objects, remoteData, Some(QueryResult(Some(rows), None)), localFolder, cryptoKey, staging, conversion,
                 upload, now, parseDate).outcome.Reported?
    ensures var out := Run(files, objects, remoteData, Some(QueryResult(Some(rows), None)), localFolder, cryptoKey, staging,
                           conversion, upload, now, parseDate).outcome;
      && out.remoteFilesDeleted == RetentionIds(rows, remoteData, now, parseDate)
      && (StagedCount(rows, localFolder, remoteData.filesNames, staging) == 0 ==> out.uploadedFiles == [])
  {
  }

  /** A missing converter, once something was staged, ends the run before upload and retention: the store is untouched. */
  lemma ConversionFailureSkipsRetention(files: map<string, Bytes>, objects: map<string, Bytes>, remoteData: FirebaseData, rows: seq<Row>,
                                        localFolder: string, cryptoKey: string, staging: StagingEnv, message: string,
                                        upload: UploadEnv, now: int, parseDate: string -> Option<int>)
    requires rows != []
    requires StagedCount(rows, localFolder, remoteData.filesNames, staging) > 0
    ensures Run(files, objects, remoteData, Some(QueryResult(Some(rows), None)), localFolder, cryptoKey, staging,
                ConverterMissing(message), upload, now, parseDate)
         == RunState(Failed(message), StagedFiles(files, rows, localFolder, remoteData.filesNames, staging), objects)
  {
  }

  /**
   * A run that staged and converted something ends with no `.rtf` and no `.pdf`
   * file of the local folder; every other staged or produced file is kept.
   */
  lemma StagedRunLeavesNoLocalArtifacts(files: map<string, Bytes>, objects: map<string, Bytes>, remoteData: FirebaseData,
                                        rows: seq<Row>, localFolder: string, cryptoKey: string, staging: StagingEnv,
                                        produced: map<string, Bytes>, upload: UploadEnv, now: int, parseDate: string -> Option<int>)
    requires rows != []
    requires StagedCount(rows, localFolder, remoteData.filesNames, staging) > 0
    ensures var s := Run(files, objects, remoteData, Some(QueryResult(Some(rows), None)), localFolder, cryptoKey, staging,
                         Converted(produced), upload, now, parseDate);
      forall p :: p in s.files <==>
        && p in StagedFiles(files, rows, localFolder, remoteData.filesNames, staging) + produced
        && !HasExtensionIn(p, localFolder, "rtf") && !HasExtensionIn(p, localFolder, "pdf")
  {
  }

  /** With no rows the staging stage never resolves, so nothing is reported. */
  lemma EmptyRowsNeverResolve(files: map<string, Bytes>, objects: map<string, Bytes>, remoteData: FirebaseData,
                              localFolder: string, cryptoKey: string, staging: StagingEnv, conversion: Conversion,
                              upload: UploadEnv, now: int, parseDate: string -> Option<int>)
    ensures Run(files, objects, remoteData, Some(QueryResult(Some([]), None)), localFolder, cryptoKey, staging, conversion,
                upload, now, parseDate) == RunState(NeverResolves, files, objects)
  {
  }

  /** Idempotent re-run: when every row already has its artifact remotely, nothing is staged or uploaded. */
  lemma RerunStagesAndUploadsNothing(files: map<string, Bytes>, objects: map<string, Bytes>, remoteData: FirebaseData, rows: seq<Row>,
                                     localFolder: string, cryptoKey: string, staging: StagingEnv, conversion: Conversion,
                                     upload: UploadEnv, now: int, parseDate: string -> Option<int>)
    requires rows != []
    requires forall r :: r in rows ==> PdfName(r.id) in remoteData.filesNames
    ensures var s := Run(files, objects, remoteData, Some(QueryResult(Some(rows), None)), localFolder, cryptoKey, staging,
                         conversion, upload, now, parseDate);
      && s.outcome == Reported([], RetentionIds(rows, remoteData, now, parseDate))
      && s.files == files
      && s.objects == objects - DeletedPaths(NewProcessor(rows, remoteData.retention, remoteData.prefix), remoteData.files, now, parseDate)
  {
    NothingStagedWhenAllRemote(files, rows, localFolder, remoteData.filesNames, staging);
  }

  /** Every artifact uploaded in a run is still in the store when the run ends: retention protects it by its row id. */
  lemma UploadedArtifactsSurviveRetention(files: map<string, Bytes>, objects: map<string, Bytes>, remoteData: FirebaseData,
                                          rows: seq<Row>, localFolder: string, cryptoKey: string, staging: StagingEnv,
                                          conversion: Conversion, upload: UploadEnv, now: int, parseDate: string -> Option<int>,
                                          x: UploadedFile)
    requires var out := Run(files, objects, remoteData, Some(QueryResult(Some(rows), None)), localFolder, cryptoKey, staging,
                            conversion, upload, now, parseDate).outcome;
      out.Reported? && x in out.uploadedFiles
    ensures exists r :: (r in rows && r.id == x.id
      && RemotePdfPath(remoteData.prefix, r) in Run(files, objects, remoteData, Some(QueryResult(Some(rows), None)), localFolder,
                                                   cryptoKey, staging, conversion, upload, now, parseDate).objects)
  {
    var staged := StagedFiles(files, rows, localFolder, remoteData.filesNames, staging);
    var converted := WithoutExtension(staged + conversion.produced, localFolder, "rtf");
    UploadedObjectsStored(objects, rows, converted, localFolder, remoteData, cryptoKey, upload, x);
    var r :| r in rows && r.id == x.id && RemotePdfPath(remoteData.prefix, r) in PutObjects(objects, rows, converted, localFolder, remoteData, upload);
    RowArtifactNeverDeleted(rows, remoteData, now, parseDate, r);
  }

  // ---------------------------------------------------------------------------
  // The job

  /** `convertFiles(localFolder)`: fails when the converter is missing, otherwise its output appears in the folder. */
  method ConvertFiles(fs: LocalFolder, conversion: Conversion) returns (r: Result<(), string>)
    modifies fs
    ensures conversion.ConverterMissing? ==> r == Failure(conversion.message) && fs.files == old(fs.files)
    ensures conversion.Converted? ==> r == Success(()) && fs.files == old(fs.files) + conversion.produced
  {
    match conversion
    case ConverterMissing(message) =>
      r := Failure(message);
    case Converted(produced) =>
      fs.AddConverted(produced);
      r := Success(());
  }

  /** `main`, from reading the rows to `sendResults`; every thrown error ends as `Failed`. */
  method RunJob(fs: LocalFolder, store: RemoteStore, remoteData: FirebaseData, mysqlData: Option<QueryResult>, localFolder: string,
                cryptoKey: string, staging: StagingEnv, conversion: Conversion, upload: UploadEnv, now: int,
                parseDate: string -> Option<int>)
    returns (outcome: RunOutcome)
    requires ListingConsistent(remoteData)
    modifies fs, store
    ensures RunState(outcome, fs.files, store.objects)
         == Run(old(fs.files), old(store.objects), remoteData, mysqlData, localFolder, cryptoKey, staging, conversion, upload, now, parseDate)
  {
    if mysqlData.None? {
      return Failed("Failed to retrieve data from MySQL");
    }
    if Truthy(mysqlData.value.error) {
      return Failed(mysqlData.value.error.value);
    }
    if mysqlData.value.rows.None? {
      return Failed("There is no data to work on!");
    }
    var mysqlRows := mysqlData.value.rows.value;
    var uploadedFiles: seq<UploadedFile> := [];

    var numLocalFiles := SaveLocalRtfFiles(fs, mysqlRows, localFolder, remoteData.filesNames, staging);
    if numLocalFiles.None? {
      return NeverResolves;
    }

    if numLocalFiles.value > 0 {
      var converted := ConvertFiles(fs, conversion);
      if converted.Failure? {
        return Failed(converted.error);
      }
      fs.DeleteLocalFiles(localFolder, "rtf");
      var uploaded := UploadFiles(fs, store, mysqlRows, localFolder, remoteData, cryptoKey, upload);
      uploadedFiles := uploaded.value;
      fs.DeleteLocalFiles(localFolder, "pdf");
    }

    var remoteFilesDeleted := RemoteFileRetention(store, mysqlRows, remoteData, now, parseDate);
    outcome := Reported(uploadedFiles, remoteFilesDeleted);
  }
}
