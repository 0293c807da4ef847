/** The process configuration of api/src/gits/config/vars.go and its
    normalisation `Update`. A fatal log is an `Err` carrying the message. */
module Config {
  import opened Wrappers
  import Strings

  /** The configuration variables that parsing and `Update` set. */
  datatype Settings = Settings(
    verbose: bool,
    debug: bool,
    trace: bool,
    repoDir: string,
    blobsFrom: seq<string>,
    gitApiSecret: string,
    noExtApiCalls: bool,
    hubApiSecret: string,
    authApiSecret: string,
    subsApiSecret: string,
    hubApiEndpoint: string,
    authApiEndpoint: string,
    subsApiEndpoint: string)

  const S3Prefix := "s3://"

  /** The first blob prefix that is not an S3 URL, if any. */
  function FirstBadBlob(blobs: seq<string>): (r: Option<nat>)
    ensures r.None? <==> forall i :: 0 <= i < |blobs| ==> Strings.HasPrefix(blobs[i], S3Prefix)
    ensures r.Some? ==> (r.value < |blobs| && !Strings.HasPrefix(blobs[r.value], S3Prefix) &&
      forall i :: 0 <= i < r.value ==> Strings.HasPrefix(blobs[i], S3Prefix))
    decreases |blobs|
  {
    if |blobs| == 0 then None
    else if !Strings.HasPrefix(blobs[0], S3Prefix) then Some(0)
    else
      match FirstBadBlob(blobs[1..])
      case None =>
        assert forall i :: 1 <= i < |blobs| ==> blobs[i] == blobs[1..][i - 1];
        None
      case Some(k) =>
        assert blobs[1..][k] == blobs[k + 1];
        assert forall i :: 1 <= i < k + 1 ==> blobs[i] == blobs[1..][i - 1];
        Some(k + 1)
  }

  function BlobError(from: string): string {
    "Blob prefix `" + from + "` not supported"
  }

  function RootError(dir: string): string {
    "Repo directory `" + dir + "` is root directory?"
  }

  /** Agreement on everything `Update` does not touch. */
  predicate SameSources(a: Settings, b: Settings) {
    a.trace == b.trace && a.blobsFrom == b.blobsFrom && a.gitApiSecret == b.gitApiSecret &&
    a.noExtApiCalls == b.noExtApiCalls && a.hubApiSecret == b.hubApiSecret &&
    a.authApiSecret == b.authApiSecret && a.subsApiSecret == b.subsApiSecret &&
    a.hubApiEndpoint == b.hubApiEndpoint && a.authApiEndpoint == b.authApiEndpoint &&
    a.subsApiEndpoint == b.subsApiEndpoint
  }

  /** `Update`: tracing implies debugging implies verbosity; every blob prefix
      must be an S3 URL; an empty repository root is the working directory and
      the file-system root is refused. Nothing else changes. */
  function Update(c: Settings): (r: Result<Settings>)
    ensures r.Ok? <==> FirstBadBlob(c.blobsFrom).None? && c.repoDir != "/"
    ensures FirstBadBlob(c.blobsFrom).Some? ==>
      r == Err(BlobError(c.blobsFrom[FirstBadBlob(c.blobsFrom).value]))
    ensures FirstBadBlob(c.blobsFrom).None? && c.repoDir == "/" ==>
      r == Err(RootError("/"))
    ensures r.Ok? ==> (r.value.trace ==> r.value.debug) && (r.value.debug ==> r.value.verbose)
    ensures r.Ok? ==> (r.value.trace == c.trace && r.value.debug == (c.debug || c.trace) &&
      r.value.verbose == (c.verbose || c.debug || c.trace))
    ensures r.Ok? ==> r.value.repoDir == (if c.repoDir == "" then "." else c.repoDir)
    ensures r.Ok? ==> SameSources(r.value, c)
  {
    RootDir(c.repoDir);
    var debug := c.debug || c.trace;
    var verbose := c.verbose || debug;
    match FirstBadBlob(c.blobsFrom)
    case Some(i) => Err(BlobError(c.blobsFrom[i]))
    case None =>
      if c.repoDir == "" then Ok(c.(verbose := verbose, debug := debug, repoDir := "."))
      else if Strings.HasPrefix(c.repoDir, "/") && |c.repoDir| == 1 then
        Err(RootError(c.repoDir))
      else Ok(c.(verbose := verbose, debug := debug))
  }

  /** The root test of `Update`: a path that starts with the separator and
      has length one is the root. */
  lemma RootDir(d: string)
    ensures (Strings.HasPrefix(d, "/") && |d| == 1) <==> d == "/"
  {
    if Strings.HasPrefix(d, "/") && |d| == 1 {
      assert d == d[..1];
    }
  }

  /** Updating an updated configuration changes nothing. */
  lemma UpdateIdempotent(c: Settings)
    requires Update(c).Ok?
    ensures Update(Update(c).value) == Update(c)
  {
  }
}
