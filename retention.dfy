/**
 * Retention of remote files: a listed file is deleted when it is outdated and
 * its name is not the artifact name `<id>.pdf` of a current row; the ids of
 * the deletions that succeeded are reported.
 */
module Retention {
  import opened Wrappers
  import opened Shared
  import opened Days
  import opened Storage

  /** The readonly state of a file retention processor, built once from the rows. */
  datatype FileRetentionProcessor = FileRetentionProcessor(localFiles: set<string>, retentionDays: int, prefix: string)

  /** The per-file verdict: outdated, and not the artifact of a current row. */
  datatype FileDeletionRule = FileDeletionRule(isOutdated: bool, isNotInLocal: bool)

  /** A processor for one retention pass: it keeps the retention and the prefix and protects the rows' `<id>.pdf` names. */
  function NewProcessor(localData: seq<Row>, retentionDays: int, prefix: string): (p: FileRetentionProcessor)
    ensures p.retentionDays == retentionDays && p.prefix == prefix
    ensures forall r :: r in localData ==> PdfName(r.id) in p.localFiles
    ensures forall n :: n in p.localFiles ==> exists r :: r in localData && n == PdfName(r.id)
  {
    FileRetentionProcessor(PdfNames(localData), retentionDays, prefix)
  }

  // ---------------------------------------------------------------------------
  // File ids: /^([a-zA-Z0-9_]+)\.(pdf|rtf)$/

  predicate IsIdChar(c: char)
  {
    'a' <= c <= 'z' || 'A' <= c <= 'Z' || '0' <= c <= '9' || c == '_'
  }

  /** A non-empty word of letters, digits and underscores. */
  predicate IsFileId(s: string)
  {
    |s| > 0 && forall i :: 0 <= i < |s| ==> IsIdChar(s[i])
  }

  /** The names the id pattern accepts. */
  ghost predicate MatchesIdPattern(fileName: string)
  {
    exists id :: IsFileId(id) && (fileName == id + ".pdf" || fileName == id + ".rtf")
  }

  /** The id part of a name that matches the pattern, None for any other name. */
  function ExtractFileId(fileName: string): (r: Option<string>)
    ensures r.Some? ==> IsFileId(r.value) && (fileName == r.value + ".pdf" || fileName == r.value + ".rtf")
  {
    var n := |fileName|;
    if n > 4 && (fileName[n - 4..] == ".pdf" || fileName[n - 4..] == ".rtf") && IsFileId(fileName[..n - 4])
    then Some(fileName[..n - 4])
    else None
  }

  /** Round trip: the id of `<id>.pdf` and of `<id>.rtf` is `id`. */
  lemma ExtractFileIdRoundTrip(id: string)
    requires IsFileId(id)
    ensures ExtractFileId(id + ".pdf") == Some(id)
    ensures ExtractFileId(id + ".rtf") == Some(id)
  {
    var p, r := id + ".pdf", id + ".rtf";
    assert p[..|p| - 4] == id && p[|p| - 4..] == ".pdf";
    assert r[..|r| - 4] == id && r[|r| - 4..] == ".rtf";
  }

  /** An id is extracted exactly from the names the pattern accepts. */
  lemma ExtractFileIdMatches(fileName: string)
    ensures ExtractFileId(fileName).Some? <==> MatchesIdPattern(fileName)
  {
    if MatchesIdPattern(fileName) {
      var id :| IsFileId(id) && (fileName == id + ".pdf" || fileName == id + ".rtf");
      ExtractFileIdRoundTrip(id);
    }
  }

  // ---------------------------------------------------------------------------
  // File age

  /** `updated.split("T")[0]`: the text before the first `T`. */
  function DatePart(updated: string): (d: string)
    ensures d <= updated && 'T' !in d
    ensures |d| < |updated| ==> updated[|d|] == 'T'
  {
    if updated == [] then []
    else if updated[0] == 'T' then []
    else [updated[0]] + DatePart(updated[1..])
  }

  /**
   * The modification instant recovered from a metadata answer, or None when
   * the fetch failed, there is no `updated`, its date part is empty, or the
   * date does not parse (`getTime()` would be NaN).
   */
  function UpdatedInstant(fetch: MetadataFetch, parseDate: string -> Option<int>): (t: Option<int>)
    ensures t.Some? <==>
      && fetch.Fetched? && fetch.metadata.Some? && fetch.metadata.value.updated.Some?
      && DatePart(fetch.metadata.value.updated.value) != ""
      && parseDate(DatePart(fetch.metadata.value.updated.value)).Some?
    ensures t.Some? ==> t == parseDate(DatePart(fetch.metadata.value.updated.value))
  {
    match fetch
    case FetchFailed => None
    case Fetched(None) => None
    case Fetched(Some(m)) =>
      match m.updated
      case None => None
      case Some(u) =>
        if u == "" then None
        else
          var dateStr := DatePart(u);
          if dateStr == "" then None else parseDate(dateStr)
  }

  /** `checkFileAge`: at least `retentionDays` whole days old at `now`; false whenever the age is unknown. */
  function CheckFileAge(p: FileRetentionProcessor, file: RemoteFile, now: int, parseDate: string -> Option<int>): (outdated: bool)
    ensures outdated <==>
      var t := UpdatedInstant(file.metadata, parseDate);
      t.Some? && now - t.value >= p.retentionDays * MsPerDay
  {
    match UpdatedInstant(file.metadata, parseDate)
    case None => false
    case Some(fileDate) =>
      AtLeastDaysIff(now, fileDate, p.retentionDays);
      DaysBetweenDates(now, fileDate) >= p.retentionDays
  }

  /** Uncertain age never makes a file outdated. */
  lemma UnknownAgeIsNotOutdated(p: FileRetentionProcessor, file: RemoteFile, now: int, parseDate: string -> Option<int>)
    requires || file.metadata.FetchFailed?
             || file.metadata.metadata.None?
             || file.metadata.metadata.value.updated.None?
             || DatePart(file.metadata.metadata.value.updated.value) == ""
    ensures !CheckFileAge(p, file, now, parseDate)
  {
  }

  /** The two deletion criteria of a file: whether it is outdated and whether it is not a current row's artifact. */
  function EvaluateDeletionCriteria(p: FileRetentionProcessor, file: RemoteFile, now: int, parseDate: string -> Option<int>)
    : (rule: FileDeletionRule)
    ensures rule.isOutdated <==>
      var t := UpdatedInstant(file.metadata, parseDate);
      t.Some? && now - t.value >= p.retentionDays * MsPerDay
    ensures !rule.isNotInLocal <==> file.name in p.localFiles
  {
    FileDeletionRule(CheckFileAge(p, file, now, parseDate), file.name !in p.localFiles)
  }

  /** The file is handed to `delete()`. */
  predicate ShouldDelete(p: FileRetentionProcessor, file: RemoteFile, now: int, parseDate: string -> Option<int>)
  {
    var rule := EvaluateDeletionCriteria(p, file, now, parseDate);
    rule.isOutdated && rule.isNotInLocal
  }

  /** What `processFile` resolves to: the extracted id after a successful delete, null otherwise. */
  function ProcessOutcome(p: FileRetentionProcessor, file: RemoteFile, now: int, parseDate: string -> Option<int>): (r: Option<string>)
    ensures r.Some? <==> ShouldDelete(p, file, now, parseDate) && file.deleteSucceeds && ExtractFileId(file.name).Some?
    ensures r.Some? ==> r == ExtractFileId(file.name)
  {
    if ShouldDelete(p, file, now, parseDate) then
      if file.deleteSucceeds then ExtractFileId(file.name) else None
    else None
  }

  /** The outcome of processing each listed file, position by position. */
  function ProcessAll(p: FileRetentionProcessor, files: seq<RemoteFile>, now: int, parseDate: string -> Option<int>): (rs: seq<Option<string>>)
    ensures |rs| == |files|
    ensures forall i :: 0 <= i < |files| ==> rs[i] == ProcessOutcome(p, files[i], now, parseDate)
  {
    if files == [] then []
    else ProcessAll(p, files[..|files| - 1], now, parseDate) + [ProcessOutcome(p, files[|files| - 1], now, parseDate)]
  }

  /** The ids of the outcomes that carry a non-empty id, in order. */
  function KeepDeletedIds(results: seq<Option<string>>): (ids: seq<string>)
    ensures |ids| <= |results|
  {
    if results == [] then []
    else
      var last := results[|results| - 1];
      KeepDeletedIds(results[..|results| - 1]) + (if last.Some? && |last.value| > 0 then [last.value] else [])
  }

  /** An id is kept iff it is a non-empty outcome. */
  lemma {:induction false} KeepDeletedIdsMembers(results: seq<Option<string>>, x: string)
    ensures x in KeepDeletedIds(results) <==> exists i :: 0 <= i < |results| && results[i] == Some(x) && |x| > 0
  {
    if results != [] {
      var n := |results| - 1;
      var init, last := results[..n], results[n];
      KeepDeletedIdsMembers(init, x);
      var tail := if last.Some? && |last.value| > 0 then [last.value] else [];
      assert KeepDeletedIds(results) == KeepDeletedIds(init) + tail;
      if x in KeepDeletedIds(results) {
        if x in KeepDeletedIds(init) {
          var i :| 0 <= i < |init| && init[i] == Some(x) && |x| > 0;
          assert results[i] == init[i];
        } else {
          assert results[n] == Some(x) && |x| > 0;
        }
      }
      if exists i :: 0 <= i < |results| && results[i] == Some(x) && |x| > 0 {
        var i :| 0 <= i < |results| && results[i] == Some(x) && |x| > 0;
        if i < n {
          assert init[i] == results[i];
        }
      }
    }
  }

  /** Where each kept id came from: strictly increasing positions, so the ids keep the listing order. */
  ghost function KeptPositions(results: seq<Option<string>>): (idx: seq<nat>)
    ensures |idx| == |KeepDeletedIds(results)|
    ensures forall k :: 0 <= k < |idx| ==> idx[k] < |results| && results[idx[k]] == Some(KeepDeletedIds(results)[k])
    ensures forall k, l :: 0 <= k < l < |idx| ==> idx[k] < idx[l]
  {
    if results == [] then []
    else
      var n := |results| - 1;
      var last := results[n];
      assert results[..n] + [last] == results;
      KeptPositions(results[..n]) + (if last.Some? && |last.value| > 0 then [n] else [])
  }

  /** What `remoteFileRetention(localData, firebaseData)` resolves to. */
  function RetentionIds(localData: seq<Row>, data: FirebaseData, now: int, parseDate: string -> Option<int>): seq<string>
  {
    KeepDeletedIds(ProcessAll(NewProcessor(localData, data.retention, data.prefix), data.files, now, parseDate))
  }

  /** The path one file's successful deletion removes, if any. */
  function DeletedBy(p: FileRetentionProcessor, file: RemoteFile, now: int, parseDate: string -> Option<int>): set<string>
  {
    if ShouldDelete(p, file, now, parseDate) && file.deleteSucceeds then {PathIn(p.prefix, file.name)} else {}
  }

  /** Removing two sets of keys one after the other removes their union. */
  lemma MinusUnion(m: map<string, Bytes>, a: set<string>, b: set<string>)
    ensures m - a - b == m - (a + b)
  {
  }

  /** The full paths of the listed files whose deletion was requested and succeeded. */
  function DeletedPaths(p: FileRetentionProcessor, files: seq<RemoteFile>, now: int, parseDate: string -> Option<int>): (s: set<string>)
    ensures forall i :: 0 <= i < |files| && ShouldDelete(p, files[i], now, parseDate) && files[i].deleteSucceeds
              ==> PathIn(p.prefix, files[i].name) in s
    ensures forall q :: q in s ==>
              (exists i :: 0 <= i < |files| && ShouldDelete(p, files[i], now, parseDate)
                 && files[i].deleteSucceeds && q == PathIn(p.prefix, files[i].name))
  {
    if files == [] then {}
    else
      var n := |files| - 1;
      var last := files[n];
      assert files[..n] + [last] == files;
      DeletedPaths(p, files[..n], now, parseDate) + DeletedBy(p, last, now, parseDate)
  }

  // ---------------------------------------------------------------------------
  // Properties

  /** Safety: the artifact `<id>.pdf` of a current row is never deleted, however old it is. */
  lemma RowArtifactNeverDeleted(localData: seq<Row>, data: FirebaseData, now: int, parseDate: string -> Option<int>, row: Row)
    requires row in localData
    ensures PathIn(data.prefix, PdfName(row.id)) !in DeletedPaths(NewProcessor(localData, data.retention, data.prefix), data.files, now, parseDate)
  {
    var p := NewProcessor(localData, data.retention, data.prefix);
    var target := PathIn(data.prefix, PdfName(row.id));
    if target in DeletedPaths(p, data.files, now, parseDate) {
      var i :| 0 <= i < |data.files| && ShouldDelete(p, data.files[i], now, parseDate)
        && data.files[i].deleteSucceeds && target == PathIn(p.prefix, data.files[i].name);
      PathInInjective(data.prefix, data.files[i].name, PdfName(row.id));
    }
  }

  /** The reported ids are exactly the ids of the deleted files whose names match the pattern. */
  lemma RetentionIdsExactly(localData: seq<Row>, data: FirebaseData, now: int, parseDate: string -> Option<int>, x: string)
    ensures var p := NewProcessor(localData, data.retention, data.prefix);
      x in RetentionIds(localData, data, now, parseDate) <==>
      exists i :: 0 <= i < |data.files| && ShouldDelete(p, data.files[i], now, parseDate)
        && data.files[i].deleteSucceeds && ExtractFileId(data.files[i].name) == Some(x)
  {
    var p := NewProcessor(localData, data.retention, data.prefix);
    var rs := ProcessAll(p, data.files, now, parseDate);
    KeepDeletedIdsMembers(rs, x);
    if exists i :: 0 <= i < |data.files| && ShouldDelete(p, data.files[i], now, parseDate)
        && data.files[i].deleteSucceeds && ExtractFileId(data.files[i].name) == Some(x) {
      var i :| 0 <= i < |data.files| && ShouldDelete(p, data.files[i], now, parseDate)
        && data.files[i].deleteSucceeds && ExtractFileId(data.files[i].name) == Some(x);
      assert rs[i] == Some(x);
    }
  }

  /** Liveness: an outdated orphan with a matching name whose delete succeeds has its id reported. */
  lemma OutdatedOrphanReported(localData: seq<Row>, data: FirebaseData, now: int, parseDate: string -> Option<int>, i: nat, id: string)
    requires i < |data.files|
    requires CheckFileAge(NewProcessor(localData, data.retention, data.prefix), data.files[i], now, parseDate)
    requires forall r :: r in localData ==> data.files[i].name != PdfName(r.id)
    requires data.files[i].deleteSucceeds
    requires IsFileId(id) && (data.files[i].name == id + ".pdf" || data.files[i].name == id + ".rtf")
    ensures id in RetentionIds(localData, data, now, parseDate)
  {
    ExtractFileIdRoundTrip(id);
    RetentionIdsExactly(localData, data, now, parseDate, id);
  }

  /** An outdated `<id>.rtf` of a current row is not protected: when its delete succeeds and the id is a word, it is removed and the id is reported. */
  lemma RtfOfCurrentRowNotProtected(localData: seq<Row>, data: FirebaseData, now: int, parseDate: string -> Option<int>, i: nat, row: Row)
    requires i < |data.files| && row in localData && IsFileId(row.id)
    requires data.files[i].name == RtfName(row.id)
    requires CheckFileAge(NewProcessor(localData, data.retention, data.prefix), data.files[i], now, parseDate)
    requires data.files[i].deleteSucceeds
    ensures PathIn(data.prefix, RtfName(row.id)) in DeletedPaths(NewProcessor(localData, data.retention, data.prefix), data.files, now, parseDate)
    ensures row.id in RetentionIds(localData, data, now, parseDate)
  {
    forall r | r in localData
      ensures data.files[i].name != PdfName(r.id)
    {
      PdfNameIsNotRtfName(r.id, row.id);
    }
    OutdatedOrphanReported(localData, data, now, parseDate, i, row.id);
  }

  /** A deleted file whose name does not match the pattern is removed but not reported. */
  lemma UnmatchedNameDeletedUnreported(p: FileRetentionProcessor, files: seq<RemoteFile>, now: int, parseDate: string -> Option<int>, i: nat)
    requires i < |files| && ShouldDelete(p, files[i], now, parseDate) && files[i].deleteSucceeds
    requires !MatchesIdPattern(files[i].name)
    ensures PathIn(p.prefix, files[i].name) in DeletedPaths(p, files, now, parseDate)
    ensures ProcessAll(p, files, now, parseDate)[i] == None
  {
    ExtractFileIdMatches(files[i].name);
  }

  /** Filtering distributes over concatenation. */
  lemma {:induction false} KeepDeletedIdsAppend(a: seq<Option<string>>, b: seq<Option<string>>)
    ensures KeepDeletedIds(a + b) == KeepDeletedIds(a) + KeepDeletedIds(b)
    decreases |b|
  {
    if b == [] {
      assert a + b == a;
    } else {
      var n := |b| - 1;
      var last := b[n];
      assert (a + b)[..|a + b| - 1] == a + b[..n];
      assert (a + b)[|a + b| - 1] == last;
      KeepDeletedIdsAppend(a, b[..n]);
      var tail := if last.Some? && |last.value| > 0 then [last.value] else [];
      assert KeepDeletedIds(a + b) == KeepDeletedIds(a + b[..n]) + tail;
      assert KeepDeletedIds(b) == KeepDeletedIds(b[..n]) + tail;
    }
  }

  /** The outcomes for `a + b` are those for `a` followed by those for `b`. */
  lemma ProcessAllAppend(p: FileRetentionProcessor, a: seq<RemoteFile>, b: seq<RemoteFile>, now: int, parseDate: string -> Option<int>)
    ensures ProcessAll(p, a + b, now, parseDate) == ProcessAll(p, a, now, parseDate) + ProcessAll(p, b, now, parseDate)
  {
    var whole, left, right := ProcessAll(p, a + b, now, parseDate), ProcessAll(p, a, now, parseDate), ProcessAll(p, b, now, parseDate);
    forall i | 0 <= i < |whole|
      ensures whole[i] == (left + right)[i]
    {
      if i < |a| {
        assert (a + b)[i] == a[i];
      } else {
        assert (a + b)[i] == b[i - |a|];
      }
    }
  }

  /** Isolation: each file contributes independently; the ids for `a + b` are those for `a` then those for `b`. */
  lemma RetentionIsPerFile(p: FileRetentionProcessor, a: seq<RemoteFile>, b: seq<RemoteFile>, now: int, parseDate: string -> Option<int>)
    ensures KeepDeletedIds(ProcessAll(p, a + b, now, parseDate))
         == KeepDeletedIds(ProcessAll(p, a, now, parseDate)) + KeepDeletedIds(ProcessAll(p, b, now, parseDate))
  {
    ProcessAllAppend(p, a, b, now, parseDate);
    KeepDeletedIdsAppend(ProcessAll(p, a, now, parseDate), ProcessAll(p, b, now, parseDate));
  }

  /** The date part of a timestamp is everything before its first `T`. */
  lemma {:induction false} DatePartBeforeFirstT(updated: string, k: nat)
    requires k < |updated| && updated[k] == 'T'
    requires forall j :: 0 <= j < k ==> updated[j] != 'T'
    ensures DatePart(updated) == updated[..k]
  {
    if k > 0 {
      DatePartBeforeFirstT(updated[1..], k - 1);
      assert [updated[0]] + updated[1..][..k - 1] == updated[..k];
    }
  }

  /** One more listed file extends the outcomes by its own outcome and the deleted paths by its own path. */
  lemma RetentionStep(p: FileRetentionProcessor, files: seq<RemoteFile>, i: nat, now: int, parseDate: string -> Option<int>)
    requires i < |files|
    ensures ProcessAll(p, files[..i + 1], now, parseDate) == ProcessAll(p, files[..i], now, parseDate) + [ProcessOutcome(p, files[i], now, parseDate)]
    ensures DeletedPaths(p, files[..i + 1], now, parseDate)
         == DeletedPaths(p, files[..i], now, parseDate) + DeletedBy(p, files[i], now, parseDate)
  {
    assert files[..i + 1][..i] == files[..i];
  }

  // ---------------------------------------------------------------------------
  // The effectful part

  /** `deleteFile`: asks the store to delete the file and reports its id on success. */
  method DeleteFile(store: RemoteStore, p: FileRetentionProcessor, file: RemoteFile) returns (r: Option<string>)
    modifies store
    ensures r == if file.deleteSucceeds then ExtractFileId(file.name) else None
    ensures store.objects == if file.deleteSucceeds then old(store.objects) - {PathIn(p.prefix, file.name)} else old(store.objects)
  {
    var ok := store.Delete(PathIn(p.prefix, file.name), file.deleteSucceeds);
    if ok {
      r := ExtractFileId(file.name);
    } else {
      r := None;
    }
  }

  /** `processFile`: deletes the file when it is outdated and not a current row's artifact. */
  method ProcessFile(store: RemoteStore, p: FileRetentionProcessor, file: RemoteFile, now: int, parseDate: string -> Option<int>)
    returns (r: Option<string>)
    modifies store
    ensures r == ProcessOutcome(p, file, now, parseDate)
    ensures store.objects == old(store.objects) - DeletedBy(p, file, now, parseDate)
  {
    var rule := EvaluateDeletionCriteria(p, file, now, parseDate);
    if rule.isOutdated && rule.isNotInLocal {
      r := DeleteFile(store, p, file);
    } else {
      r := None;
    }
    assert store.objects == old(store.objects) - DeletedBy(p, file, now, parseDate);
  }

  /** `remoteFileRetention`: runs every listed file through the processor and reports the deleted ids. */
  method RemoteFileRetention(store: RemoteStore, localData: seq<Row>, firebaseData: FirebaseData, now: int, parseDate: string -> Option<int>)
    returns (deleted: seq<string>)
    modifies store
    ensures deleted == RetentionIds(localData, firebaseData, now, parseDate)
    ensures store.objects == old(store.objects)
      - DeletedPaths(NewProcessor(localData, firebaseData.retention, firebaseData.prefix), firebaseData.files, now, parseDate)
  {
    var processor := NewProcessor(localData, firebaseData.retention, firebaseData.prefix);
    var files := firebaseData.files;
    var deletionResults: seq<Option<string>> := [];
    for i := 0 to |files|
      invariant deletionResults == ProcessAll(processor, files[..i], now, parseDate)
      invariant store.objects == old(store.objects) - DeletedPaths(processor, files[..i], now, parseDate)
    {
      var r := ProcessFile(store, processor, files[i], now, parseDate);
      RetentionStep(processor, files, i, now, parseDate);
      MinusUnion(old(store.objects), DeletedPaths(processor, files[..i], now, parseDate), DeletedBy(processor, files[i], now, parseDate));
      deletionResults := deletionResults + [r];
    }
    assert files[..|files|] == files;
    deleted := KeepDeletedIds(deletionResults);
  }
}
