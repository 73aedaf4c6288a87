/**
 * The staging writer: for every row whose artifact is not yet remote, the
 * gzip-compressed document is decompressed, cleaned and written to
 * `<localFolder>/<id>.rtf`; the number of files written is reported once
 * every row has been visited.
 */
module Staging {
  import opened Wrappers
  import opened Shared
  import opened Storage

  /**
   * The collaborators of one staging run: `ungzip` and `cleanData` (None when
   * they throw or reject) and the file system's answer to each write.
   */
  datatype StagingEnv = StagingEnv(
    ungzip: Bytes -> Option<Bytes>,
    cleanData: Bytes -> Option<Bytes>,
    writeSucceeds: string -> bool)

  /** The local path `<localFolder>/<id>.rtf` of a row's staged file. */
  function RtfPath(localFolder: string, row: Row): string
  {
    PathIn(localFolder, RtfName(row.id))
  }

  /** The bytes the row's staged file receives: None when the row is skipped or decoding fails. */
  function StagedContent(row: Row, remoteNames: seq<string>, env: StagingEnv): (c: Option<Bytes>)
    ensures c.Some? ==> PdfName(row.id) !in remoteNames
  {
    if PdfName(row.id) in remoteNames then None
    else
      match env.ungzip(row.file)
      case None => None
      case Some(uncompressed) => env.cleanData(uncompressed)
  }

  /** Ungzip, clean and write all succeeded for this row. */
  predicate IsStaged(row: Row, localFolder: string, remoteNames: seq<string>, env: StagingEnv)
  {
    StagedContent(row, remoteNames, env).Some? && env.writeSucceeds(RtfPath(localFolder, row))
  }

  /** The number of rows that were staged. */
  function StagedCount(rows: seq<Row>, localFolder: string, remoteNames: seq<string>, env: StagingEnv): nat
  {
    if rows == [] then 0
    else
      StagedCount(rows[..|rows| - 1], localFolder, remoteNames, env)
        + (if IsStaged(rows[|rows| - 1], localFolder, remoteNames, env) then 1 else 0)
  }

  /** The local folder after the rows' writes. */
  function StagedFiles(files: map<string, Bytes>, rows: seq<Row>, localFolder: string, remoteNames: seq<string>, env: StagingEnv)
    : map<string, Bytes>
  {
    if rows == [] then files
    else
      var before := StagedFiles(files, rows[..|rows| - 1], localFolder, remoteNames, env);
      var row := rows[|rows| - 1];
      if IsStaged(row, localFolder, remoteNames, env)
      then before[RtfPath(localFolder, row) := StagedContent(row, remoteNames, env).value]
      else before
  }

  // ---------------------------------------------------------------------------
  // Properties

  /** The count never exceeds the number of rows lacking a remote artifact. */
  lemma {:induction false} StagedCountAtMostMissing(rows: seq<Row>, localFolder: string, remoteNames: seq<string>, env: StagingEnv)
    ensures StagedCount(rows, localFolder, remoteNames, env) <= |MissingRows(rows, remoteNames)|
  {
    if rows != [] {
      StagedCountAtMostMissing(rows[..|rows| - 1], localFolder, remoteNames, env);
    }
  }

  /** Idempotent re-run: when every row already has its artifact remotely, nothing is written and the count is 0. */
  lemma {:induction false} NothingStagedWhenAllRemote(files: map<string, Bytes>, rows: seq<Row>, localFolder: string, remoteNames: seq<string>, env: StagingEnv)
    requires forall r :: r in rows ==> PdfName(r.id) in remoteNames
    ensures StagedCount(rows, localFolder, remoteNames, env) == 0
    ensures StagedFiles(files, rows, localFolder, remoteNames, env) == files
  {
    if rows != [] {
      var init := rows[..|rows| - 1];
      assert forall r :: r in init ==> r in rows;
      assert rows[|rows| - 1] in rows;
      NothingStagedWhenAllRemote(files, init, localFolder, remoteNames, env);
    }
  }

  /** Each staged row's file `<localFolder>/<id>.rtf` is present afterwards, and the folder only grows. */
  lemma {:induction false} StagedRowsWritten(files: map<string, Bytes>, rows: seq<Row>, localFolder: string, remoteNames: seq<string>, env: StagingEnv)
    ensures files.Keys <= StagedFiles(files, rows, localFolder, remoteNames, env).Keys
    ensures forall r :: r in rows && IsStaged(r, localFolder, remoteNames, env)
              ==> RtfPath(localFolder, r) in StagedFiles(files, rows, localFolder, remoteNames, env)
  {
    if rows != [] {
      var init := rows[..|rows| - 1];
      assert rows == init + [rows[|rows| - 1]];
      StagedRowsWritten(files, init, localFolder, remoteNames, env);
    }
  }

  /** Only `.rtf` files of rows lacking a remote artifact are written; everything else is left as it was. */
  lemma {:induction false} OnlyMissingRowsWritten(files: map<string, Bytes>, rows: seq<Row>, localFolder: string, remoteNames: seq<string>, env: StagingEnv, p: string)
    requires forall r :: r in rows && PdfName(r.id) !in remoteNames ==> p != RtfPath(localFolder, r)
    ensures p in StagedFiles(files, rows, localFolder, remoteNames, env) <==> p in files
    ensures p in files ==> StagedFiles(files, rows, localFolder, remoteNames, env)[p] == files[p]
  {
    if rows != [] {
      var init := rows[..|rows| - 1];
      assert rows == init + [rows[|rows| - 1]];
      OnlyMissingRowsWritten(files, init, localFolder, remoteNames, env, p);
    }
  }

  /** A staged row whose path no later staged row rewrites holds `cleanData(ungzip(row.file))` afterwards. */
  lemma {:induction false} StagedRowContent(files: map<string, Bytes>, rows: seq<Row>, i: nat, localFolder: string,
                                            remoteNames: seq<string>, env: StagingEnv)
    requires i < |rows| && IsStaged(rows[i], localFolder, remoteNames, env)
    requires forall j :: i < j < |rows| && IsStaged(rows[j], localFolder, remoteNames, env)
               ==> RtfPath(localFolder, rows[j]) != RtfPath(localFolder, rows[i])
    ensures RtfPath(localFolder, rows[i]) in StagedFiles(files, rows, localFolder, remoteNames, env)
    ensures StagedFiles(files, rows, localFolder, remoteNames, env)[RtfPath(localFolder, rows[i])]
         == StagedContent(rows[i], remoteNames, env).value
  {
    var init := rows[..|rows| - 1];
    if i < |rows| - 1 {
      assert init[i] == rows[i];
      assert forall j :: i < j < |init| ==> init[j] == rows[j];
      StagedRowContent(files, init, i, localFolder, remoteNames, env);
    }
  }

  /** The positions below `m` whose row was staged. */
  ghost function StagedPositions(rows: seq<Row>, m: nat, localFolder: string, remoteNames: seq<string>, env: StagingEnv): set<int>
    requires m <= |rows|
  {
    set i | 0 <= i < m && IsStaged(rows[i], localFolder, remoteNames, env)
  }

  /** The count is the number of positions whose row was staged: ungzip, clean and write all succeeded. */
  lemma StagedCountIsStagedRows(rows: seq<Row>, localFolder: string, remoteNames: seq<string>, env: StagingEnv)
    ensures StagedCount(rows, localFolder, remoteNames, env)
         == |set i | 0 <= i < |rows| && IsStaged(rows[i], localFolder, remoteNames, env)|
  {
    StagedCountPrefix(rows, |rows|, localFolder, remoteNames, env);
    assert rows[..|rows|] == rows;
  }

  /** The count over the first `m` rows is the number of staged positions below `m`. */
  lemma {:induction false} StagedCountPrefix(rows: seq<Row>, m: nat, localFolder: string, remoteNames: seq<string>, env: StagingEnv)
    requires m <= |rows|
    ensures StagedCount(rows[..m], localFolder, remoteNames, env) == |StagedPositions(rows, m, localFolder, remoteNames, env)|
  {
    if m > 0 {
      StagedCountPrefix(rows, m - 1, localFolder, remoteNames, env);
      StagedPositionsStep(rows, m, localFolder, remoteNames, env);
      assert rows[..m][..m - 1] == rows[..m - 1];
    }
  }

  /** Position `m - 1` adds one to the staged positions exactly when its row was staged. */
  lemma StagedPositionsStep(rows: seq<Row>, m: nat, localFolder: string, remoteNames: seq<string>, env: StagingEnv)
    requires 0 < m <= |rows|
    ensures |StagedPositions(rows, m, localFolder, remoteNames, env)|
         == |StagedPositions(rows, m - 1, localFolder, remoteNames, env)| + if IsStaged(rows[m - 1], localFolder, remoteNames, env) then 1 else 0
  {
    var before := StagedPositions(rows, m - 1, localFolder, remoteNames, env);
    var after := StagedPositions(rows, m, localFolder, remoteNames, env);
    if IsStaged(rows[m - 1], localFolder, remoteNames, env) {
      assert after == before + {m - 1} by {
        forall i | i in after
          ensures i in before + {m - 1}
        {
        }
      }
      assert m - 1 !in before;
      assert |before + {m - 1}| == |before| + 1;
    } else {
      assert after == before by {
        forall i | i in after
          ensures i in before
        {
        }
      }
    }
  }

  /** Isolation: the rows of `a + b` are counted independently. */
  lemma {:induction false} StagedCountAppend(a: seq<Row>, b: seq<Row>, localFolder: string, remoteNames: seq<string>, env: StagingEnv)
    ensures StagedCount(a + b, localFolder, remoteNames, env)
         == StagedCount(a, localFolder, remoteNames, env) + StagedCount(b, localFolder, remoteNames, env)
    decreases |b|
  {
    if b == [] {
      assert a + b == a;
    } else {
      var n := |b| - 1;
      assert (a + b)[..|a + b| - 1] == a + b[..n];
      StagedCountAppend(a, b[..n], localFolder, remoteNames, env);
    }
  }

  // ---------------------------------------------------------------------------
  // The staging loop

  /**
   * `saveLocalRtfFiles`. The rows are visited in order; the count is delivered
   * when the last row has been visited, so with no rows it is never delivered (None).
   */
  method SaveLocalRtfFiles(fs: LocalFolder, localData: seq<Row>, localFolder: string, remoteFilesNames: seq<string>, env: StagingEnv)
    returns (resolved: Option<nat>)
    modifies fs
    ensures resolved == if |localData| == 0 then None else Some(StagedCount(localData, localFolder, remoteFilesNames, env))
    ensures fs.files == StagedFiles(old(fs.files), localData, localFolder, remoteFilesNames, env)
  {
    resolved := None;
    var numSavedFiles := 0;
    var counter := 0;
    for i := 0 to |localData|
      invariant counter == i
      invariant numSavedFiles == StagedCount(localData[..i], localFolder, remoteFilesNames, env)
      invariant fs.files == StagedFiles(old(fs.files), localData[..i], localFolder, remoteFilesNames, env)
      invariant resolved == if 0 < i == |localData| then Some(numSavedFiles) else None
    {
      var row := localData[i];
      assert localData[..i + 1][..i] == localData[..i];
      if PdfName(row.id) !in remoteFilesNames {
        var rtfFileName := PathIn(localFolder, RtfName(row.id));
        var uncompressed := env.ungzip(row.file);
        if uncompressed.Some? {
          var cleaned := env.cleanData(uncompressed.value);
          if cleaned.Some? {
            var written := fs.WriteFile(rtfFileName, cleaned.value, env.writeSucceeds(rtfFileName));
            if written {
              numSavedFiles := numSavedFiles + 1;
            }
          }
        }
      }
      counter := counter + 1;
      if counter == |localData| {
        resolved := Some(numSavedFiles);
      }
    }
    assert localData[..|localData|] == localData;
  }
}
