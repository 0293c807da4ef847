/** The older service's repository handlers (api/src/gits/api): reading a
    blob, creating a repository, reporting its status and adding subtrees.
    Each turns the error of the repository operation it calls into an HTTP
    status by looking for words in the message.

    The repository operations, JSON (un)marshalling and `filepath.Clean` are
    parameters; a request body is the bytes read and the read error, if any.
 */
module Handlers {
  import opened Wrappers
  import Strings
  import Numerals
  import opened Responses
  import RepoName
  import RepoStatus
  import Subtrees

  /** A rule of a status table: an error containing `needle` gets `status`. */
  datatype Rule = Rule(needle: string, status: int)

  /** The status for an error: the first rule whose text the message contains;
      500 when none does. */
  function Classify(err: string, rules: seq<Rule>): (status: int)
    ensures (forall i :: 0 <= i < |rules| ==> !Strings.Contains(err, rules[i].needle)) ==>
      status == StatusInternalServerError
    ensures forall i :: (0 <= i < |rules| && Strings.Contains(err, rules[i].needle) &&
      (forall j :: 0 <= j < i ==> !Strings.Contains(err, rules[j].needle))) ==> status == rules[i].status
    ensures status == StatusInternalServerError || exists i :: 0 <= i < |rules| && status == rules[i].status
    decreases |rules|
  {
    if |rules| == 0 then StatusInternalServerError
    else if Strings.Contains(err, rules[0].needle) then rules[0].status
    else
      var tail := rules[1..];
      assert forall i :: 1 <= i < |rules| ==> rules[i] == tail[i - 1];
      Classify(err, tail)
  }

  /** A request body: the bytes read and the error that stopped reading. */
  datatype Body = Body(data: string, err: Option<string>)

  // ---------------------------------------------------------------- blob

  const BlobRules := [
    Rule("not found", StatusNotFound),
    Rule("is a directory", StatusBadRequest),
    Rule("not a regular file", StatusConflict),
    Rule("file too big", StatusNotImplemented)]

  /** `sendRepoBlob`'s table, checked in order. */
  lemma BlobStatusTable(err: string)
    ensures Classify(err, BlobRules) ==
      if Strings.Contains(err, "not found") then StatusNotFound
      else if Strings.Contains(err, "is a directory") then StatusBadRequest
      else if Strings.Contains(err, "not a regular file") then StatusConflict
      else if Strings.Contains(err, "file too big") then StatusNotImplemented
      else StatusInternalServerError
  {
    var rs := BlobRules;
    assert rs[0].needle == "not found" && rs[1].needle == "is a directory";
    assert rs[2].needle == "not a regular file" && rs[3].needle == "file too big";
  }

  /** A blob request: the repository, the file path from the route and the
      `ref` query value. */
  datatype BlobRequest = BlobRequest(organization: string, repository: string, file: string, ref: string)

  function BlobMessage(repoId: string, path: string, err: string): string {
    "Unable to obtain Git repo `" + repoId + "` blob `" + path + "`: " + err
  }

  const OctetStream := "application/octet-stream"
  const JsonType := "application/json; charset=utf-8"

  /** `sendRepoBlob`: the blob of the cleaned path at the ref as an octet
      stream with 200, or the error with the status of its message. `blob`
      receives the repository id, the ref and the path. */
  function SendRepoBlob(req: BlobRequest, clean: string -> string,
                        blob: (string, string, string) -> Result<string>,
                        marshal: string -> Result<string>): (r: seq<Event>)
    ensures var got := blob(RepoName.RepositoryId(req.organization, req.repository), req.ref, clean(req.file));
      && StatusFirst(r)
      && StatusOf(r) == (if got.Ok? then StatusOK else Classify(got.error, BlobRules))
      && HeaderOf(r, "Content-Type") == (if got.Ok? then OctetStream else JsonType)
      && (got.Ok? ==> BodyOf(r) == got.value)
  {
    var repoId := RepoName.RepositoryId(req.organization, req.repository);
    var path := clean(req.file);
    match blob(repoId, req.ref, path)
    case Err(e) => LegacyWriteError(Classify(e, BlobRules), BlobMessage(repoId, path, e), marshal)
    case Ok(data) =>
      RespondSeen([SetHeader("Content-Type", OctetStream)], StatusOK, data);
      OneHeaderSeen("Content-Type", OctetStream, StatusOK, data);
      Respond([SetHeader("Content-Type", OctetStream)], StatusOK, data)
  }

  // -------------------------------------------------------------- create

  /** The body of a create request: `{"Archive": …}`. */
  datatype CreateRequest = CreateRequest(archive: string)

  const CreateRules := [
    Rule("exist", StatusConflict),
    Rule("not supported", StatusBadRequest),
    Rule("S3", StatusGatewayTimeout)]

  /** `createRepo`'s table, checked in order. */
  lemma CreateStatusTable(err: string)
    ensures Classify(err, CreateRules) ==
      if Strings.Contains(err, "exist") then StatusConflict
      else if Strings.Contains(err, "not supported") then StatusBadRequest
      else if Strings.Contains(err, "S3") then StatusGatewayTimeout
      else StatusInternalServerError
  {
    var rs := CreateRules;
    assert rs[0].needle == "exist" && rs[1].needle == "not supported" && rs[2].needle == "S3";
  }

  function ReadError(read: nat, err: string): string {
    "Error reading request body (read " + Numerals.Itoa(read) + " bytes): " + err
  }

  function JsonError(err: string): string {
    "Error unmarshalling JSON request: " + err
  }

  /** The archive to create from: a body of at most four bytes is not read as
      JSON and asks for an empty repository. */
  function CreateArchive(data: string, unmarshal: string -> Result<CreateRequest>): (r: Result<string>)
    ensures |data| <= 4 ==> r == Ok("")
    ensures |data| > 4 ==> (r.Ok? <==> unmarshal(data).Ok?)
    ensures |data| > 4 && r.Ok? ==> r.value == unmarshal(data).value.archive
    ensures |data| > 4 && r.Err? ==> r.error == JsonError(unmarshal(data).error)
  {
    if |data| > 4 then
      match unmarshal(data)
      case Err(e) => Err(JsonError(e))
      case Ok(req) => Ok(req.archive)
    else Ok("")
  }

  function CreateMessage(repoId: string, err: string): string {
    "Unable to create Git repo `" + repoId + "`: " + err
  }

  /** `createRepo`: a body that cannot be read is 500, bad JSON 400; a
      repository that cannot be created gets the status of its error; 201
      otherwise. `create` receives the repository id and the archive. */
  function CreateRepo(repoId: string, body: Body, unmarshal: string -> Result<CreateRequest>,
                      create: (string, string) -> Option<string>,
                      marshal: string -> Result<string>): (r: seq<Event>)
    ensures body.err.Some? ==> StatusOf(r) == StatusInternalServerError
    ensures body.err.None? && CreateArchive(body.data, unmarshal).Err? ==> StatusOf(r) == StatusBadRequest
    ensures body.err.None? && CreateArchive(body.data, unmarshal).Ok? ==>
      var err := create(repoId, CreateArchive(body.data, unmarshal).value);
      StatusOf(r) == (if err.None? then StatusCreated else Classify(err.value, CreateRules))
    ensures StatusOf(r) == StatusCreated <==>
      (body.err.None? && CreateArchive(body.data, unmarshal).Ok? &&
       create(repoId, CreateArchive(body.data, unmarshal).value).None?)
  {
    if body.err.Some? then
      LegacyWriteError(StatusInternalServerError, ReadError(|body.data|, body.err.value), marshal)
    else
      match CreateArchive(body.data, unmarshal)
      case Err(e) => LegacyWriteError(StatusBadRequest, e, marshal)
      case Ok(archive) =>
        match create(repoId, archive)
        case Some(e) =>
          var status := Classify(e, CreateRules);
          assert status != StatusCreated by { ClassifyNotCreated(e); }
          LegacyWriteError(status, CreateMessage(repoId, e), marshal)
        case None => [WriteHeader(StatusCreated)]
  }

  /** No status of the create table is 201. */
  lemma ClassifyNotCreated(e: string)
    ensures Classify(e, CreateRules) != StatusCreated
  {
    CreateStatusTable(e);
  }

  /** A short body is never handed to the JSON decoder. */
  lemma ShortBodyNotDecoded(repoId: string, data: string, u1: string -> Result<CreateRequest>,
                            u2: string -> Result<CreateRequest>, create: (string, string) -> Option<string>,
                            marshal: string -> Result<string>)
    requires |data| <= 4
    ensures CreateRepo(repoId, Body(data, None), u1, create, marshal) ==
      CreateRepo(repoId, Body(data, None), u2, create, marshal)
    ensures create(repoId, "").None? ==> StatusOf(CreateRepo(repoId, Body(data, None), u1, create, marshal)) == StatusCreated
  {
  }

  // -------------------------------------------------------------- status

  const StatusRules := [
    Rule("not found", StatusNotFound),
    Rule("multiple refs", StatusConflict)]

  /** `sendRepoStatus`'s table, checked in order. */
  lemma StatusStatusTable(err: string)
    ensures Classify(err, StatusRules) ==
      if Strings.Contains(err, "not found") then StatusNotFound
      else if Strings.Contains(err, "multiple refs") then StatusConflict
      else StatusInternalServerError
  {
    var rs := StatusRules;
    assert rs[0].needle == "not found" && rs[1].needle == "multiple refs";
  }

  /** A status request: the repository and the `ref` query value. */
  datatype StatusRequest = StatusRequest(organization: string, repository: string, ref: string)

  function StatusMessage(repoId: string, err: string): string {
    "Unable to obtain Git repo `" + repoId + "` status: " + err
  }

  function MarshalError(err: string): string {
    "Unable to marshall JSON: " + err
  }

  /** `sendRepoStatus`: the status as JSON with 200; a failed lookup gets the
      status of its error, even when a partial status came with it. `status`
      receives the repository id and the ref. */
  function SendRepoStatus(req: StatusRequest,
                          status: (string, string) -> RepoStatus.StatusReply,
                          marshalStatus: Option<RepoStatus.Status> -> Result<string>,
                          marshal: string -> Result<string>): (r: seq<Event>)
    ensures var got := status(RepoName.RepositoryId(req.organization, req.repository), req.ref);
      && StatusFirst(r)
      && (got.err.Some? ==> StatusOf(r) == Classify(got.err.value, StatusRules))
      && (got.err.None? && marshalStatus(got.status).Err? ==> StatusOf(r) == StatusInternalServerError)
      && (got.err.None? && marshalStatus(got.status).Ok? ==>
            StatusOf(r) == StatusOK && BodyOf(r) == marshalStatus(got.status).value &&
            HeaderOf(r, "Content-Type") == JsonType)
  {
    var repoId := RepoName.RepositoryId(req.organization, req.repository);
    var got := status(repoId, req.ref);
    if got.err.Some? then
      LegacyWriteError(Classify(got.err.value, StatusRules), StatusMessage(repoId, got.err.value), marshal)
    else
      match marshalStatus(got.status)
      case Err(e) => LegacyWriteError(StatusInternalServerError, MarshalError(e), marshal)
      case Ok(bytes) =>
        RespondSeen([SetHeader("Content-Type", JsonType)], StatusOK, bytes);
        OneHeaderSeen("Content-Type", JsonType, StatusOK, bytes);
        Respond([SetHeader("Content-Type", JsonType)], StatusOK, bytes)
  }

  /** A ref `git show-ref` does not know is reported as 404. */
  lemma UnknownRefIsNotFound(req: StatusRequest, showRef: string -> RepoStatus.GitRun,
                             show: string -> RepoStatus.GitRun,
                             marshalStatus: Option<RepoStatus.Status> -> Result<string>,
                             marshal: string -> Result<string>)
    requires !RepoStatus.GuessIsCommitHash(RepoStatus.DefaultRef(req.ref))
    requires showRef(RepoStatus.DefaultRef(req.ref)).output == ""
    ensures StatusOf(SendRepoStatus(req, (id: string, ref: string) => RepoStatus.ReadStatus(ref, showRef, show),
                                    marshalStatus, marshal)) == StatusNotFound
  {
    RepoStatus.UnknownRefReadsNotFound(req.ref, showRef, show);
    NotFoundClassified(RepoStatus.DefaultRef(req.ref));
  }

  /** The "not found" error of a ref is classified as 404. */
  lemma NotFoundClassified(ref: string)
    ensures Classify(RepoStatus.NotFound(ref), StatusRules) == StatusNotFound
  {
    var err := RepoStatus.NotFound(ref);
    assert err == "Ref `" + ref + "` " + "not found" + "";
    Strings.ContainsMiddle("Ref `" + ref + "` ", "not found", "");
    StatusStatusTable(err);
  }

  // ------------------------------------------------------------ subtrees

  const SubtreesRules := [Rule("exist", StatusConflict)]

  const EmptySubtrees := "Request `subtrees` is empty"

  function BodyError(err: string): string {
    "Error reading request body: " + err
  }

  function SubtreesMessage(repoId: string, err: string): string {
    "Unable to add subtrees to Git repo `" + repoId + "`: " + err
  }

  /** The reply to the outcome of `AddSubtrees`: 204, or 409 when the error
      says "exist" and 500 otherwise. */
  function SubtreesReply(repoId: string, added: Result<()>, marshal: string -> Result<string>): (r: seq<Event>)
    ensures StatusOf(r) == (if added.Ok? then StatusNoContent
                            else if Strings.Contains(added.error, "exist") then StatusConflict
                            else StatusInternalServerError)
  {
    match added
    case Err(e) =>
      var rs := SubtreesRules;
      assert rs[0].needle == "exist";
      LegacyWriteError(Classify(e, SubtreesRules), SubtreesMessage(repoId, e), marshal)
    case Ok(_) => [WriteHeader(StatusNoContent)]
  }

  /** A subtree whose prefix already exists in the clone is a conflict. */
  lemma ExistingSubtreeConflicts(repoId: string, prefix: string, marshal: string -> Result<string>)
    ensures StatusOf(SubtreesReply(repoId, Err(Subtrees.AlreadyExist(prefix)), marshal)) == StatusConflict
  {
    var e := Subtrees.AlreadyExist(prefix);
    assert e == "Path `" + prefix + "` already " + "exist" + "";
    Strings.ContainsMiddle("Path `" + prefix + "` already ", "exist", "");
  }

  /** A subtrees request: the repository, the `ref` query value and the body. */
  datatype SubtreesRequest = SubtreesRequest(organization: string, repository: string, ref: string, body: Body)

  /** `addSubtrees`: an unreadable body is 500, bad JSON or an empty list 400,
      all before the repository is touched; a failed `AddSubtrees` is 409 when
      its error says "exist" and 500 otherwise; 204 on success. */
  function AddSubtreesHandler(req: SubtreesRequest, unmarshal: string -> Result<seq<Subtrees.Spec>>,
                              env: Subtrees.Env, marshal: string -> Result<string>): (r: seq<Event>)
    ensures req.body.err.Some? ==> StatusOf(r) == StatusInternalServerError
    ensures req.body.err.None? && unmarshal(req.body.data).Err? ==> StatusOf(r) == StatusBadRequest
    ensures req.body.err.None? && unmarshal(req.body.data) == Ok([]) ==> StatusOf(r) == StatusBadRequest
    ensures req.body.err.None? && unmarshal(req.body.data).Ok? && unmarshal(req.body.data).value != [] ==>
      var added := Subtrees.AddSubtrees(env, RepoName.RepositoryId(req.organization, req.repository),
                                        req.ref, unmarshal(req.body.data).value);
      StatusOf(r) == (if added.Ok? then StatusNoContent
                      else if Strings.Contains(added.error, "exist") then StatusConflict
                      else StatusInternalServerError)
  {
    if req.body.err.Some? then LegacyWriteError(StatusInternalServerError, BodyError(req.body.err.value), marshal)
    else
      match unmarshal(req.body.data)
      case Err(e) => LegacyWriteError(StatusBadRequest, JsonError(e), marshal)
      case Ok(specs) =>
        if |specs| == 0 then LegacyWriteError(StatusBadRequest, EmptySubtrees, marshal)
        else
          var repoId := RepoName.RepositoryId(req.organization, req.repository);
          SubtreesReply(repoId, Subtrees.AddSubtrees(env, repoId, req.ref, specs), marshal)
  }
}
