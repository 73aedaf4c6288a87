/**
 * The upload sequencer: for every row whose artifact is not yet remote and
 * whose converted `<localFolder>/<id>.pdf` exists, the file is put at
 * `<prefix>/<id>.pdf`, its download URL is fetched, and a record with the
 * keyed hash of the verification code and the encrypted URL is collected.
 */
module Upload {
  import opened Wrappers
  import opened Shared
  import opened Storage

  /** The two primitives of `encrypt(type, message, key)`: HMAC-MD5 and AES. */
  datatype Cipher = MD5 | AES

  /**
   * The collaborators of one upload run: the store's answer to each `put`,
   * `getDownloadURL` (None when it rejects), and the uninterpreted `encrypt`.
   */
  datatype UploadEnv = UploadEnv(
    putSucceeds: string -> bool,
    downloadUrl: string -> Option<string>,
    encrypt: (Cipher, string, string) -> string)

  /** The local path `<localFolder>/<id>.pdf` of a row's converted file. */
  function LocalPdfPath(localFolder: string, row: Row): string
  {
    PathIn(localFolder, PdfName(row.id))
  }

  /** The remote path `<prefix>/<id>.pdf` of a row's artifact. */
  function RemotePdfPath(prefix: string, row: Row): string
  {
    PathIn(prefix, PdfName(row.id))
  }

  /** The record of an uploaded row: its id, the MD5 keyed hash of its verification code and the AES-encrypted URL. */
  function UploadRecord(row: Row, url: string, cryptoKey: string, env: UploadEnv): (u: UploadedFile)
  {
    UploadedFile(row.id, env.encrypt(MD5, row.verificationCode, cryptoKey), env.encrypt(AES, url, cryptoKey))
  }

  /** The record a row yields, or None when it is skipped or any step fails. */
  function UploadOutcome(row: Row, localFiles: map<string, Bytes>, localFolder: string, data: FirebaseData, cryptoKey: string, env: UploadEnv)
    : (o: Option<UploadedFile>)
    ensures o.Some? <==>
      && PdfName(row.id) !in data.filesNames
      && LocalPdfPath(localFolder, row) in localFiles
      && env.putSucceeds(RemotePdfPath(data.prefix, row))
      && env.downloadUrl(RemotePdfPath(data.prefix, row)).Some?
    ensures o.Some? ==> o.value == UploadRecord(row, env.downloadUrl(RemotePdfPath(data.prefix, row)).value, cryptoKey, env)
  {
    if PdfName(row.id) in data.filesNames then None
    else if LocalPdfPath(localFolder, row) !in localFiles then None
    else if !env.putSucceeds(RemotePdfPath(data.prefix, row)) then None
    else
      match env.downloadUrl(RemotePdfPath(data.prefix, row))
      case None => None
      case Some(url) => Some(UploadRecord(row, url, cryptoKey, env))
  }

  /** The records of the rows that were uploaded, in row order. */
  function Uploads(rows: seq<Row>, localFiles: map<string, Bytes>, localFolder: string, data: FirebaseData, cryptoKey: string, env: UploadEnv)
    : seq<UploadedFile>
  {
    if rows == [] then []
    else
      var row := rows[|rows| - 1];
      Uploads(rows[..|rows| - 1], localFiles, localFolder, data, cryptoKey, env)
        + match UploadOutcome(row, localFiles, localFolder, data, cryptoKey, env)
          case None => []
          case Some(u) => [u]
  }

  /** The remote objects after the rows' puts (a put is attempted only for a row with a local PDF). */
  function PutObjects(objects: map<string, Bytes>, rows: seq<Row>, localFiles: map<string, Bytes>, localFolder: string,
                      data: FirebaseData, env: UploadEnv): map<string, Bytes>
  {
    if rows == [] then objects
    else
      var before := PutObjects(objects, rows[..|rows| - 1], localFiles, localFolder, data, env);
      var row := rows[|rows| - 1];
      if PdfName(row.id) !in data.filesNames && LocalPdfPath(localFolder, row) in localFiles
         && env.putSucceeds(RemotePdfPath(data.prefix, row))
      then before[RemotePdfPath(data.prefix, row) := localFiles[LocalPdfPath(localFolder, row)]]
      else before
  }

  // ---------------------------------------------------------------------------
  // Properties

  /** The result holds exactly the records of the rows for which every step succeeded. */
  lemma {:induction false} UploadsExactly(rows: seq<Row>, localFiles: map<string, Bytes>, localFolder: string, data: FirebaseData,
                                          cryptoKey: string, env: UploadEnv, x: UploadedFile)
    ensures x in Uploads(rows, localFiles, localFolder, data, cryptoKey, env)
        <==> exists r :: r in rows && UploadOutcome(r, localFiles, localFolder, data, cryptoKey, env) == Some(x)
  {
    if rows != [] {
      var init := rows[..|rows| - 1];
      assert rows == init + [rows[|rows| - 1]];
      UploadsExactly(init, localFiles, localFolder, data, cryptoKey, env, x);
    }
  }

  /** At most one record per row, and only rows lacking a remote artifact yield one. */
  lemma {:induction false} UploadsAtMostMissing(rows: seq<Row>, localFiles: map<string, Bytes>, localFolder: string, data: FirebaseData,
                                                cryptoKey: string, env: UploadEnv)
    ensures |Uploads(rows, localFiles, localFolder, data, cryptoKey, env)| <= |MissingRows(rows, data.filesNames)|
  {
    if rows != [] {
      UploadsAtMostMissing(rows[..|rows| - 1], localFiles, localFolder, data, cryptoKey, env);
    }
  }

  /** When every row is already present remotely, no record is produced and the store is unchanged. */
  lemma {:induction false} NothingUploadedWhenAllRemote(objects: map<string, Bytes>, rows: seq<Row>, localFiles: map<string, Bytes>,
                                                        localFolder: string, data: FirebaseData, cryptoKey: string, env: UploadEnv)
    requires forall r :: r in rows ==> PdfName(r.id) in data.filesNames
    ensures Uploads(rows, localFiles, localFolder, data, cryptoKey, env) == []
    ensures PutObjects(objects, rows, localFiles, localFolder, data, env) == objects
  {
    if rows != [] {
      var init := rows[..|rows| - 1];
      assert forall r :: r in init ==> r in rows;
      assert rows[|rows| - 1] in rows;
      NothingUploadedWhenAllRemote(objects, init, localFiles, localFolder, data, cryptoKey, env);
    }
  }

  /** Isolation: each row's record depends on that row alone; the records of `a + b` are those of `a` then those of `b`. */
  lemma {:induction false} UploadsAppend(a: seq<Row>, b: seq<Row>, localFiles: map<string, Bytes>, localFolder: string, data: FirebaseData,
                                         cryptoKey: string, env: UploadEnv)
    ensures Uploads(a + b, localFiles, localFolder, data, cryptoKey, env)
         == Uploads(a, localFiles, localFolder, data, cryptoKey, env) + Uploads(b, localFiles, localFolder, data, cryptoKey, env)
    decreases |b|
  {
    if b == [] {
      assert a + b == a;
    } else {
      var n := |b| - 1;
      assert (a + b)[..|a + b| - 1] == a + b[..n];
      UploadsAppend(a, b[..n], localFiles, localFolder, data, cryptoKey, env);
    }
  }

  /** Only `<prefix>/<id>.pdf` of rows lacking a remote artifact is put; every other object is left as it was. */
  lemma {:induction false} OnlyMissingRowsPut(objects: map<string, Bytes>, rows: seq<Row>, localFiles: map<string, Bytes>,
                                              localFolder: string, data: FirebaseData, env: UploadEnv, p: string)
    requires forall r :: r in rows && PdfName(r.id) !in data.filesNames ==> p != RemotePdfPath(data.prefix, r)
    ensures p in PutObjects(objects, rows, localFiles, localFolder, data, env) <==> p in objects
    ensures p in objects ==> PutObjects(objects, rows, localFiles, localFolder, data, env)[p] == objects[p]
  {
    if rows != [] {
      var init := rows[..|rows| - 1];
      assert rows == init + [rows[|rows| - 1]];
      OnlyMissingRowsPut(objects, init, localFiles, localFolder, data, env, p);
    }
  }

  /** A row whose put succeeded leaves its local `<localFolder>/<id>.pdf` bytes at `<prefix>/<id>.pdf`. */
  lemma {:induction false} PutRowStored(objects: map<string, Bytes>, rows: seq<Row>, localFiles: map<string, Bytes>,
                                        localFolder: string, data: FirebaseData, env: UploadEnv, r: Row)
    requires r in rows && PdfName(r.id) !in data.filesNames && LocalPdfPath(localFolder, r) in localFiles
    requires env.putSucceeds(RemotePdfPath(data.prefix, r))
    ensures RemotePdfPath(data.prefix, r) in PutObjects(objects, rows, localFiles, localFolder, data, env)
    ensures PutObjects(objects, rows, localFiles, localFolder, data, env)[RemotePdfPath(data.prefix, r)]
         == localFiles[LocalPdfPath(localFolder, r)]
  {
    var init := rows[..|rows| - 1];
    var row := rows[|rows| - 1];
    assert rows == init + [row];
    if r in init {
      PutRowStored(objects, init, localFiles, localFolder, data, env, r);
      if RemotePdfPath(data.prefix, row) == RemotePdfPath(data.prefix, r) {
        PathInInjective(data.prefix, PdfName(row.id), PdfName(r.id));
        PdfNameInjective(row.id, r.id);
      }
    }
  }

  /** Every uploaded row's object `<prefix>/<id>.pdf` is in the store afterwards, holding the bytes of its local PDF. */
  lemma UploadedObjectsStored(objects: map<string, Bytes>, rows: seq<Row>, localFiles: map<string, Bytes>,
                              localFolder: string, data: FirebaseData, cryptoKey: string, env: UploadEnv, x: UploadedFile)
    requires x in Uploads(rows, localFiles, localFolder, data, cryptoKey, env)
    ensures exists r :: (r in rows && r.id == x.id && LocalPdfPath(localFolder, r) in localFiles
                         && RemotePdfPath(data.prefix, r) in PutObjects(objects, rows, localFiles, localFolder, data, env)
                         && PutObjects(objects, rows, localFiles, localFolder, data, env)[RemotePdfPath(data.prefix, r)]
                            == localFiles[LocalPdfPath(localFolder, r)])
  {
    UploadsExactly(rows, localFiles, localFolder, data, cryptoKey, env, x);
    var r :| r in rows && UploadOutcome(r, localFiles, localFolder, data, cryptoKey, env) == Some(x);
    PutRowStored(objects, rows, localFiles, localFolder, data, env, r);
  }

  /** One more row extends the records by its own record and the store by its own put. */
  lemma UploadStep(objects: map<string, Bytes>, rows: seq<Row>, i: nat, localFiles: map<string, Bytes>, localFolder: string,
                   data: FirebaseData, cryptoKey: string, env: UploadEnv)
    requires i < |rows|
    ensures Uploads(rows[..i + 1], localFiles, localFolder, data, cryptoKey, env)
         == Uploads(rows[..i], localFiles, localFolder, data, cryptoKey, env)
            + match UploadOutcome(rows[i], localFiles, localFolder, data, cryptoKey, env)
              case None => []
              case Some(u) => [u]
    ensures var before := PutObjects(objects, rows[..i], localFiles, localFolder, data, env);
      PutObjects(objects, rows[..i + 1], localFiles, localFolder, data, env)
      == if PdfName(rows[i].id) !in data.filesNames && LocalPdfPath(localFolder, rows[i]) in localFiles
            && env.putSucceeds(RemotePdfPath(data.prefix, rows[i]))
         then before[RemotePdfPath(data.prefix, rows[i]) := localFiles[LocalPdfPath(localFolder, rows[i])]]
         else before
  {
    assert rows[..i + 1][..i] == rows[..i];
  }

  // ---------------------------------------------------------------------------
  // The upload loop

  /**
   * `uploadFiles`. The rows are visited in order and a failing row is skipped;
   * the records are delivered when the last row has been visited, so with no
   * rows they are never delivered (None).
   */
  method UploadFiles(fs: LocalFolder, store: RemoteStore, localData: seq<Row>, localFolder: string, firebaseData: FirebaseData,
                     cryptoKey: string, env: UploadEnv)
    returns (resolved: Option<seq<UploadedFile>>)
    modifies store
    ensures resolved == if |localData| == 0 then None
                        else Some(Uploads(localData, fs.files, localFolder, firebaseData, cryptoKey, env))
    ensures store.objects == PutObjects(old(store.objects), localData, fs.files, localFolder, firebaseData, env)
  {
    resolved := None;
    var uploadedFiles: seq<UploadedFile> := [];
    var counter := 0;
    for i := 0 to |localData|
      invariant counter == i
      invariant uploadedFiles == Uploads(localData[..i], fs.files, localFolder, firebaseData, cryptoKey, env)
      invariant store.objects == PutObjects(old(store.objects), localData[..i], fs.files, localFolder, firebaseData, env)
      invariant resolved == if 0 < i == |localData| then Some(uploadedFiles) else None
    {
      var row := localData[i];
      UploadStep(old(store.objects), localData, i, fs.files, localFolder, firebaseData, cryptoKey, env);
      var fileName := PdfName(row.id);
      var localFilePath := PathIn(localFolder, fileName);
      if fileName !in firebaseData.filesNames {
        var localFile := fs.ReadFile(localFilePath);
        if localFile.Some? {
          var fileRef := PathIn(firebaseData.prefix, fileName);
          var put := store.Put(fileRef, localFile.value, env.putSucceeds(fileRef));
          if put {
            var url := env.downloadUrl(fileRef);
            if url.Some? {
              uploadedFiles := uploadedFiles + [UploadRecord(row, url.value, cryptoKey, env)];
            }
          }
        }
      }
      counter := counter + 1;
      if counter == |localData| {
        resolved := Some(uploadedFiles);
      }
    }
    assert localData[..|localData|] == localData;
  }
}
