/**
 * Shared vocabulary of the job: database rows, the remote listing, upload
 * records and the "<id>.<ext>" file naming convention that both the
 * staging/upload stages and the retention stage rely on.
 */
module Shared {
  import opened Wrappers

  type Bytes = seq<bv8>

  /** A database row. `id` is the row's id in its string form (`${row.id}`). */
  datatype Row = Row(id: string, file: Bytes, verificationCode: string)

  /** What `file.getMetadata()` resolves to; `updated` is the ISO modification time. */
  datatype Metadata = Metadata(updated: Option<string>)

  /** The outcome of `file.getMetadata()`: resolved (possibly with no metadata object) or rejected. */
  datatype MetadataFetch = Fetched(metadata: Option<Metadata>) | FetchFailed

  /**
   * An item of the remote listing: its name relative to the listed prefix, and
   * the store's answers to `getMetadata()` and `delete()` on it.
   */
  datatype RemoteFile = RemoteFile(name: string, metadata: MetadataFetch, deleteSucceeds: bool)

  /** The remote listing taken once at start: retention setting, prefix, listed items and their names. */
  datatype FirebaseData = FirebaseData(retention: int, prefix: string, files: seq<RemoteFile>, filesNames: seq<string>)

  /** The record reported for a row uploaded during this run. */
  datatype UploadedFile = UploadedFile(id: string, hash: string, encryptedUrl: string)

  /** The names of the remote files, in order. */
  function FileNames(files: seq<RemoteFile>): (names: seq<string>)
    ensures |names| == |files|
    ensures forall i :: 0 <= i < |files| ==> names[i] == files[i].name
  {
    if files == [] then [] else FileNames(files[..|files| - 1]) + [files[|files| - 1].name]
  }

  /** `${id}.pdf`: the remote artifact name of a row. */
  function PdfName(id: string): string
  {
    id + ".pdf"
  }

  /** `${id}.rtf`: the staged source file name of a row. */
  function RtfName(id: string): string
  {
    id + ".rtf"
  }

  /** `${folder}/${name}`: a path inside a folder (local or remote). */
  function PathIn(folder: string, name: string): string
  {
    folder + "/" + name
  }

  /** `<id>.pdf` is the id followed by exactly `.pdf`. */
  lemma PdfNameParts(id: string)
    ensures var n := PdfName(id); |n| == |id| + 4 && n[..|id|] == id && n[|id|..] == ".pdf"
  {
  }

  /** `<id>.rtf` is the id followed by exactly `.rtf`. */
  lemma RtfNameParts(id: string)
    ensures var n := RtfName(id); |n| == |id| + 4 && n[..|id|] == id && n[|id|..] == ".rtf"
  {
  }

  /** `<folder>/<name>` is the folder, one `/`, then the name. */
  lemma PathInParts(folder: string, name: string)
    ensures var p := PathIn(folder, name);
      |p| == |folder| + 1 + |name| && p[..|folder|] == folder && p[|folder|] == '/' && p[|folder| + 1..] == name
  {
  }

  /** The names `<id>.pdf` of the remote artifacts of a list of rows. */
  function PdfNames(rows: seq<Row>): (s: set<string>)
    ensures forall r :: r in rows ==> PdfName(r.id) in s
    ensures forall n :: n in s ==> exists r :: r in rows && n == PdfName(r.id)
  {
    set r | r in rows :: PdfName(r.id)
  }

  /** The `.rtf` name of any id is never in the protected set of `.pdf` names. */
  lemma RtfNameNeverProtected(rows: seq<Row>, id: string)
    ensures RtfName(id) !in PdfNames(rows)
  {
    if RtfName(id) in PdfNames(rows) {
      var r :| r in rows && RtfName(id) == PdfName(r.id);
      PdfNameIsNotRtfName(r.id, id);
    }
  }

  /** The listing's names are the names of its items, as `firebaseData` builds them. */
  predicate ListingConsistent(data: FirebaseData)
  {
    data.filesNames == FileNames(data.files)
  }

  /** Distinct names give distinct paths in one folder. */
  lemma PathInInjective(folder: string, a: string, b: string)
    requires PathIn(folder, a) == PathIn(folder, b)
    ensures a == b
  {
    PathInParts(folder, a);
    PathInParts(folder, b);
  }

  /** A row's artifact name is never another row's staged source name. */
  lemma PdfNameIsNotRtfName(a: string, b: string)
    ensures PdfName(a) != RtfName(b)
  {
    PdfNameParts(a);
    RtfNameParts(b);
    if |a| == |b| {
      assert PdfName(a)[|a| + 1] == 'p' && RtfName(b)[|b| + 1] == 'r';
    }
  }

  /** Distinct ids have distinct artifact names. */
  lemma PdfNameInjective(a: string, b: string)
    requires PdfName(a) == PdfName(b)
    ensures a == b
  {
    PdfNameParts(a);
    PdfNameParts(b);
  }

  /** The rows whose artifact `<id>.pdf` is not among the remote names, in order. */
  function MissingRows(rows: seq<Row>, remoteNames: seq<string>): (m: seq<Row>)
    ensures |m| <= |rows|
    ensures forall r :: r in m <==> r in rows && PdfName(r.id) !in remoteNames
  {
    if rows == [] then []
    else
      var last := rows[|rows| - 1];
      assert rows == rows[..|rows| - 1] + [last];
      MissingRows(rows[..|rows| - 1], remoteNames) + (if PdfName(last.id) in remoteNames then [] else [last])
  }
}
