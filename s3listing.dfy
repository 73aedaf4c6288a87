/**
 * The S3-compatible backend's setup: the client's port and SSL choice, the
 * retention clamp, and the listing of the configured folder with the folder
 * prefix stripped from every object name.
 */
module S3Listing {
  import opened Wrappers

  /** The longest retention a presigned download URL of the store allows, in days. */
  const MaxFileRetentionDays: int := 7

  /** The service configuration: `fileRetention` (days) and the listed `folder`. */
  datatype S3Config = S3Config(fileRetention: int, folder: string)

  /** The service account; `port` is the optional explicit port. */
  datatype S3ServiceAccount = S3ServiceAccount(uri: string, user: string, password: string, bucket: string, port: Option<int>)

  /**
   * The parts of `new URL(uri)` that are used. A URL parser keeps `port`
   * empty or a string of decimal digits, and `protocol` includes the colon.
   */
  datatype Url = Url(hostname: string, port: string, protocol: string)

  /** One object the listing stream delivers; `lastModified` is already in ISO form. */
  datatype ListedObject = ListedObject(name: Option<string>, lastModified: Option<string>, size: Option<int>)

  /** How the listing stream ends: with "end" or with "error". */
  datatype StreamEnd = Ended | Errored(reason: string)

  datatype S3File = S3File(name: string, lastModified: Option<string>, size: Option<int>)

  /** The client options that are derived from the configuration. */
  datatype ClientOptions = ClientOptions(endPoint: string, port: int, useSSL: bool, accessKey: string, secretKey: string)

  datatype S3Data = S3Data(retention: int, folder: string, client: ClientOptions, bucket: string, files: seq<S3File>,
                           filesNames: seq<string>)

  datatype S3Error = InvalidUri | ListingFailed(reason: string)

  // ---------------------------------------------------------------------------
  // Ports

  predicate IsDigit(c: char)
  {
    '0' <= c <= '9'
  }

  predicate IsDigits(s: string)
  {
    forall i :: 0 <= i < |s| ==> IsDigit(s[i])
  }

  /** Ten raised to the power `n`. */
  function Pow10(n: nat): (p: nat)
    ensures p > 0
  {
    if n == 0 then 1 else Pow10(n - 1) * 10
  }

  /** `parseInt(s, 10)` on a string of decimal digits: a value below `10^|s|`, the last digit being its units. */
  function DecimalValue(s: string): (v: nat)
    requires IsDigits(s)
    ensures v < Pow10(|s|)
    ensures s != [] ==> v % 10 == s[|s| - 1] as int - '0' as int
  {
    if s == [] then 0
    else
      var init := s[..|s| - 1];
      var digit := s[|s| - 1] as int - '0' as int;
      var high := DecimalValue(init);
      assert high * 10 + digit < Pow10(|s|) by {
        assert high + 1 <= Pow10(|init|);
        assert (high + 1) * 10 <= Pow10(|init|) * 10;
      }
      high * 10 + digit
  }

  /** The decimal digits of `n`, as a URL spells out an explicit port. */
  function DecimalString(n: nat): (s: string)
    ensures |s| > 0 && IsDigits(s)
  {
    if n < 10 then [(n + '0' as int) as char]
    else DecimalString(n / 10) + [(n % 10 + '0' as int) as char]
  }

  /** Round trip: parsing the decimal spelling of a port gives the port back. */
  lemma {:induction false} DecimalRoundTrip(n: nat)
    ensures DecimalValue(DecimalString(n)) == n
  {
    if n >= 10 {
      var s := DecimalString(n);
      assert s[..|s| - 1] == DecimalString(n / 10);
      DecimalRoundTrip(n / 10);
    }
  }

  /**
   * The port of the client: an explicit non-zero port, else the URL's port,
   * else 443 for `https:`, else 9000.
   */
  method ResolvePort(port: Option<int>, url: Url) returns (resolvedPort: int)
    requires IsDigits(url.port)
    ensures port.Some? && port.value != 0 ==> resolvedPort == port.value
    ensures (port.None? || port.value == 0) && url.port != "" ==> resolvedPort == DecimalValue(url.port)
    ensures (port.None? || port.value == 0) && url.port == "" && url.protocol == "https:" ==> resolvedPort == 443
    ensures (port.None? || port.value == 0) && url.port == "" && url.protocol != "https:" ==> resolvedPort == 9000
  {
    if port.Some? && port.value != 0 {
      resolvedPort := port.value;
    } else if url.port != "" {
      resolvedPort := DecimalValue(url.port);
    } else if url.protocol == "https:" {
      resolvedPort := 443;
    } else {
      resolvedPort := 9000;
    }
  }

  /** The configured retention, capped at the maximum of 7 days. */
  function ClampRetention(fileRetention: int): (r: int)
    ensures r <= MaxFileRetentionDays
    ensures r == fileRetention || r == MaxFileRetentionDays
    ensures fileRetention <= MaxFileRetentionDays ==> r == fileRetention
  {
    if fileRetention < MaxFileRetentionDays then fileRetention else MaxFileRetentionDays
  }

  // ---------------------------------------------------------------------------
  // Object names

  /** `pat` occurs in `s` at position `j`. */
  predicate OccursAt(s: string, pat: string, j: int)
  {
    0 <= j && j + |pat| <= |s| && s[j..j + |pat|] == pat
  }

  /** The first position at or after `from` where `pat` occurs in `s`. */
  function FindFrom(s: string, pat: string, from: nat): (r: Option<nat>)
    requires from <= |s|
    ensures r.Some? ==> from <= r.value && OccursAt(s, pat, r.value)
                        && forall j :: from <= j < r.value ==> !OccursAt(s, pat, j)
    ensures r.None? ==> forall j :: from <= j <= |s| ==> !OccursAt(s, pat, j)
    decreases |s| - from
  {
    if OccursAt(s, pat, from) then Some(from)
    else if from == |s| then None
    else FindFrom(s, pat, from + 1)
  }

  /** The object name with its first occurrence of `<folder>/` removed. */
  function StripFolder(name: string, folder: string): (r: string)
    ensures (forall j :: !OccursAt(name, folder + "/", j)) ==> r == name
    ensures (exists j :: OccursAt(name, folder + "/", j)) ==> |r| == |name| - |folder| - 1
    ensures (exists j :: OccursAt(name, folder + "/", j)) ==>
      exists i :: (OccursAt(name, folder + "/", i) && (forall j :: 0 <= j < i ==> !OccursAt(name, folder + "/", j))
                   && r == name[..i] + name[i + |folder| + 1..])
  {
    match FindFrom(name, folder + "/", 0)
    case None => name
    case Some(i) => name[..i] + name[i + |folder| + 1..]
  }

  /** An object listed under the folder loses exactly its `<folder>/` prefix. */
  lemma StripFolderUnderFolder(folder: string, rest: string)
    ensures StripFolder(folder + "/" + rest, folder) == rest
  {
    var name := folder + "/" + rest;
    assert OccursAt(name, folder + "/", 0);
    assert FindFrom(name, folder + "/", 0) == Some(0);
  }

  // ---------------------------------------------------------------------------
  // The listing

  /** The entry an object with a (non-empty) name contributes to `files`. */
  function ToS3File(obj: ListedObject, folder: string): S3File
    requires obj.name.Some?
  {
    S3File(StripFolder(obj.name.value, folder), obj.lastModified, obj.size)
  }

  /** The stream has a name for this object (`if (obj.name)`). */
  predicate HasName(obj: ListedObject)
  {
    obj.name.Some? && obj.name.value != ""
  }

  /** The `files` the "data" callback collects: named objects only, in stream order. */
  function ListedFiles(objects: seq<ListedObject>, folder: string): (files: seq<S3File>)
    ensures |files| <= |objects|
    ensures forall f :: f in files ==> exists o :: o in objects && HasName(o) && f == ToS3File(o, folder)
    ensures forall o :: o in objects && HasName(o) ==> ToS3File(o, folder) in files
  {
    if objects == [] then []
    else
      var last := objects[|objects| - 1];
      assert objects == objects[..|objects| - 1] + [last];
      ListedFiles(objects[..|objects| - 1], folder) + (if HasName(last) then [ToS3File(last, folder)] else [])
  }

  /** The names of the listed files, in order. */
  function Names(files: seq<S3File>): (names: seq<string>)
    ensures |names| == |files|
    ensures forall i :: 0 <= i < |files| ==> names[i] == files[i].name
  {
    if files == [] then [] else Names(files[..|files| - 1]) + [files[|files| - 1].name]
  }

  /**
   * `s3Data`: builds the client options and lists the folder. It fails when
   * the URI does not parse and when the listing stream ends with an error.
   */
  method GetS3Data(s3Config: S3Config, account: S3ServiceAccount, parseUrl: string -> Option<Url>,
                   objects: seq<ListedObject>, streamEnd: StreamEnd)
    returns (r: Result<S3Data, S3Error>)
    requires parseUrl(account.uri).Some? ==> IsDigits(parseUrl(account.uri).value.port)
    ensures parseUrl(account.uri).None? ==> r == Failure(InvalidUri)
    ensures parseUrl(account.uri).Some? && streamEnd.Errored? ==> r == Failure(ListingFailed(streamEnd.reason))
    ensures r.Success? <==> parseUrl(account.uri).Some? && streamEnd.Ended?
    ensures r.Success? ==>
      var url := parseUrl(account.uri).value;
      && r.value.retention == ClampRetention(s3Config.fileRetention)
      && r.value.folder == s3Config.folder
      && r.value.bucket == account.bucket
      && r.value.client.endPoint == url.hostname
      && r.value.client.useSSL == (url.protocol == "https:")
      && (account.port.Some? && account.port.value != 0 ==> r.value.client.port == account.port.value)
      && ((account.port.None? || account.port.value == 0) && url.port != "" ==> r.value.client.port == DecimalValue(url.port))
      && ((account.port.None? || account.port.value == 0) && url.port == "" ==>
            r.value.client.port == if url.protocol == "https:" then 443 else 9000)
      && r.value.files == ListedFiles(objects, s3Config.folder)
      && |r.value.filesNames| == |r.value.files|
      && (forall i :: 0 <= i < |r.value.files| ==> r.value.filesNames[i] == r.value.files[i].name)
  {
    var parsed := parseUrl(account.uri);
    if parsed.None? {
      return Failure(InvalidUri);
    }
    var url := parsed.value;
    var resolvedPort := ResolvePort(account.port, url);
    var client := ClientOptions(url.hostname, resolvedPort, url.protocol == "https:", account.user, account.password);
    var retention := ClampRetention(s3Config.fileRetention);

    var files: seq<S3File> := [];
    for i := 0 to |objects|
      invariant files == ListedFiles(objects[..i], s3Config.folder)
    {
      var obj := objects[i];
      assert objects[..i + 1][..i] == objects[..i];
      if obj.name.Some? && obj.name.value != "" {
        files := files + [S3File(StripFolder(obj.name.value, s3Config.folder), obj.lastModified, obj.size)];
      }
    }
    assert objects[..|objects|] == objects;

    match streamEnd
    case Errored(reason) =>
      r := Failure(ListingFailed(reason));
    case Ended =>
      r := Success(S3Data(retention, s3Config.folder, client, account.bucket, files, Names(files)));
  }
}
