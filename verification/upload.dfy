/** Uploading files into a repository: one file in the request body, or the
    parts of a multipart form, each with an optional octal file mode. Both the
    gateway (cmd/gits/api/upload.go) and the older service
    (api/src/gits/api/upload.go) are modelled.

    Committing the files (`repo.Add`), JSON marshalling and `filepath.Clean`
    are parameters; the multipart form arrives parsed, its fields in the order
    the map is visited.
 */
module Upload {
  import opened Wrappers
  import Strings
  import Numerals
  import opened Responses
  import RepoName

  /** One more than the largest 32-bit unsigned value. */
  const Uint32Limit := 0x1_0000_0000

  /** The length of the longest prefix made of octal digits. */
  function OctalRun(s: string): (k: nat)
    ensures k <= |s|
    ensures Numerals.AllDigitsIn(s[..k], 8)
    ensures k < |s| ==> !Numerals.IsDigitIn(s[k], 8)
    decreases |s|
  {
    if |s| == 0 || !Numerals.IsDigitIn(s[0], 8) then 0
    else
      var k := OctalRun(s[1..]);
      assert s[..k + 1] == [s[0]] + s[1..][..k];
      k + 1
  }

  function SyntaxError(s: string): string {
    "strconv.ParseUint: parsing " + Strings.Quoted(s) + ": invalid syntax"
  }

  function RangeError(s: string): string {
    "strconv.ParseUint: parsing " + Strings.Quoted(s) + ": value out of range"
  }

  /** `strconv.ParseUint(s, 8, 32)`: digits are read left to right; a
      non-octal character is a syntax error and passing 32 bits a range error,
      whichever comes first; the empty string is a syntax error. */
  function ParseOctal32(s: string): (r: Result<nat>)
    ensures r.Ok? <==> s != "" && Numerals.AllDigitsIn(s, 8) && Numerals.Value(s, 8) < Uint32Limit
    ensures r.Ok? ==> r.value == Numerals.Value(s, 8) && r.value < Uint32Limit
    ensures r.Err? ==> (r.error == RangeError(s) || r.error == SyntaxError(s))
    ensures r.Err? ==> (r.error == RangeError(s) <==> Numerals.Value(s[..OctalRun(s)], 8) >= Uint32Limit)
  {
    var k := OctalRun(s);
    assert |SyntaxError(s)| != |RangeError(s)|;
    assert Numerals.AllDigitsIn(s, 8) ==> k == |s|;
    assert k == |s| ==> s[..k] == s;
    if s == "" then Err(SyntaxError(s))
    else if Numerals.Value(s[..k], 8) >= Uint32Limit then Err(RangeError(s))
    else if k < |s| then Err(SyntaxError(s))
    else
      assert s[..k] == s;
      Ok(Numerals.Value(s, 8))
  }

  /** Every 32-bit mode written in octal reads back as itself. */
  lemma ParseOctalRoundTrip(n: nat)
    requires n < Uint32Limit
    ensures ParseOctal32(Numerals.Format(n, 8)) == Ok(n)
  {
    Numerals.ValueOfFormat(n, 8);
  }

  function ModeError(s: string, e: string): string {
    "Mode " + Strings.Quoted(s) + ": " + e
  }

  /** The gateway's `queryFileMode`: no mode means 0; otherwise the octal
      value, or an error naming the text. */
  function QueryFileMode(strMode: string): (r: Result<nat>)
    ensures strMode == "" ==> r == Ok(0)
    ensures strMode != "" ==> (r.Ok? <==> ParseOctal32(strMode).Ok?)
    ensures strMode != "" && r.Ok? ==> r.value == Numerals.Value(strMode, 8)
    ensures r.Err? ==> r.error == ModeError(strMode, ParseOctal32(strMode).error)
  {
    if strMode == "" then Ok(0)
    else
      match ParseOctal32(strMode)
      case Err(e) => Err(ModeError(strMode, e))
      case Ok(m) => Ok(m)
  }

  /** The older `queryFileMode`: the text is always parsed, so no mode is an
      error. */
  function LegacyQueryFileMode(strMode: string): (r: Result<nat>)
    ensures strMode == "" ==> r == Err(ModeError("", SyntaxError("")))
    ensures r.Ok? <==> ParseOctal32(strMode).Ok?
    ensures r.Ok? ==> r.value == Numerals.Value(strMode, 8)
  {
    match ParseOctal32(strMode)
    case Err(e) => Err(ModeError(strMode, e))
    case Ok(m) => Ok(m)
  }

  /** The mode a handler goes on with: a bad mode is logged and 0 is used. */
  function ModeOrZero(r: Result<nat>): nat {
    match r
    case Ok(m) => m
    case Err(_) => 0
  }

  /** The two versions differ only for an absent mode, and then only in
      whether an error is logged: both go on with mode 0. */
  lemma QueryVersionsAgree(strMode: string)
    ensures strMode != "" ==> QueryFileMode(strMode) == LegacyQueryFileMode(strMode)
    ensures ModeOrZero(QueryFileMode(strMode)) == ModeOrZero(LegacyQueryFileMode(strMode))
    ensures QueryFileMode("").Ok? && LegacyQueryFileMode("").Err?
  {
  }

  /** A mode written in octal is the mode used. */
  lemma QueryModeRoundTrip(n: nat)
    requires n < Uint32Limit
    ensures QueryFileMode(Numerals.Format(n, 8)) == Ok(n)
  {
    ParseOctalRoundTrip(n);
  }

  /** A file handed to `repo.Add`. */
  datatype AddFile = AddFile(path: string, content: string, mode: nat)

  function AddError(e: string): string {
    "Unable to add files to Git repository: " + e
  }

  /** `add`: 204 when the files are committed; otherwise a JSON error with 500. */
  function AddReply(err: Option<string>, marshal: string -> Result<string>): (r: seq<Event>)
    ensures StatusOf(r) == (if err.None? then StatusNoContent else StatusInternalServerError)
    ensures err.None? ==> BodyOf(r) == ""
    ensures err.Some? && marshal(AddError(err.value)).Ok? ==> BodyOf(r) == marshal(AddError(err.value)).value
  {
    match err
    case None =>
      assert BodyOf([WriteHeader(StatusNoContent)]) == "" + BodyOf([]);
      [WriteHeader(StatusNoContent)]
    case Some(e) => WriteError(StatusInternalServerError, AddError(e), marshal)
  }

  /** The older `add`, whose error is written status first. */
  function LegacyAddReply(err: Option<string>, marshal: string -> Result<string>): (r: seq<Event>)
    ensures StatusOf(r) == (if err.None? then StatusNoContent else StatusInternalServerError)
    ensures err.Some? && marshal(AddError(err.value)).Ok? ==> BodyOf(r) == marshal(AddError(err.value)).value
  {
    match err
    case None => [WriteHeader(StatusNoContent)]
    case Some(e) => LegacyWriteError(StatusInternalServerError, AddError(e), marshal)
  }

  /** A single-file upload: the repository, the file path from the route, and
      the `ref`, `mode` and `message` query values ("" when absent). */
  datatype FileRequest = FileRequest(
    organization: string, repository: string, file: string,
    ref: string, mode: string, message: string, body: string)

  /** The file the gateway commits for a single-file upload: the cleaned path,
      the body, and the mode (0 when absent or bad). */
  function RequestFile(req: FileRequest, clean: string -> string): (f: AddFile)
    ensures f.path == clean(req.file) && f.content == req.body
    ensures req.mode == "" ==> f.mode == 0
    ensures ParseOctal32(req.mode).Ok? ==> f.mode == ParseOctal32(req.mode).value
    ensures req.mode != "" && ParseOctal32(req.mode).Err? ==> f.mode == 0
  {
    AddFile(clean(req.file), req.body, ModeOrZero(QueryFileMode(req.mode)))
  }

  /** The gateway's `uploadFile`. `add` receives the repository id, the branch,
      the files and the commit message, and returns the error, if any. */
  function UploadFile(req: FileRequest, clean: string -> string,
                      add: (string, string, seq<AddFile>, string) -> Option<string>,
                      marshal: string -> Result<string>): (r: seq<Event>)
    ensures var id := RepoName.RepositoryId(req.organization, req.repository);
      StatusOf(r) == (if add(id, req.ref, [RequestFile(req, clean)], req.message).None? then StatusNoContent
                      else StatusInternalServerError)
  {
    var id := RepoName.RepositoryId(req.organization, req.repository);
    AddReply(add(id, req.ref, [RequestFile(req, clean)], req.message), marshal)
  }

  /** The path as given: the older service does not clean it. */
  function Verbatim(path: string): string {
    path
  }

  /** The file the older service commits: the path as given in the route. */
  function LegacyRequestFile(req: FileRequest): (f: AddFile)
    ensures f.path == req.file && f.content == req.body
    ensures f.mode == RequestFile(req, Verbatim).mode
  {
    QueryVersionsAgree(req.mode);
    AddFile(req.file, req.body, ModeOrZero(LegacyQueryFileMode(req.mode)))
  }

  /** The older `uploadFile`: no branch; `add` receives the repository id, the
      files and the commit message. */
  function LegacyUploadFile(req: FileRequest, add: (string, seq<AddFile>, string) -> Option<string>,
                            marshal: string -> Result<string>): (r: seq<Event>)
    ensures var id := RepoName.RepositoryId(req.organization, req.repository);
      StatusOf(r) == (if add(id, [LegacyRequestFile(req)], req.message).None? then StatusNoContent
                      else StatusInternalServerError)
  {
    var id := RepoName.RepositoryId(req.organization, req.repository);
    LegacyAddReply(add(id, [LegacyRequestFile(req)], req.message), marshal)
  }

  /** A file of a multipart part: its content or the error opening it, and its
      MIME header when it has one. */
  datatype FileHeader = FileHeader(open: Result<string>, header: Option<map<string, seq<string>>>)

  /** A multipart field and the files sent under it. */
  datatype Part = Part(field: string, files: seq<FileHeader>)

  /** The mode of a part: the first value of its case-sensitive "Mode" header
      read as octal; 0 when there is none, it is empty, or it is bad. */
  function HeaderMode(header: Option<map<string, seq<string>>>): (mode: nat)
    ensures header.None? ==> mode == 0
    ensures header.Some? && "Mode" !in header.value ==> mode == 0
    ensures mode != 0 ==> (header.Some? && "Mode" in header.value && |header.value["Mode"]| >= 1 &&
      ParseOctal32(header.value["Mode"][0]) == Ok(mode))
  {
    match header
    case None => 0
    case Some(h) =>
      if "Mode" in h && |h["Mode"]| >= 1 && h["Mode"][0] != "" then ModeOrZero(ParseOctal32(h["Mode"][0]))
      else 0
  }

  /** The file committed for a part: its first file, under the field name. */
  function PartFile(p: Part, clean: string -> string): AddFile
    requires |p.files| > 0 && p.files[0].open.Ok?
  {
    AddFile(clean(p.field), p.files[0].open.value, HeaderMode(p.files[0].header))
  }

  predicate Opens(p: Part) {
    |p.files| == 0 || p.files[0].open.Ok?
  }

  function PartError(field: string, e: string): string {
    "Error processing multipart request part " + Strings.Quoted(field) + ": " + e
  }

  /** The files of a form: for each field with files, its first file only; the
      first field whose first file cannot be opened ends the upload. */
  function Collect(parts: seq<Part>, clean: string -> string): (r: Result<seq<AddFile>>)
    ensures r.Ok? <==> forall i :: 0 <= i < |parts| ==> Opens(parts[i])
    ensures r.Ok? ==> forall i :: 0 <= i < |parts| && |parts[i].files| > 0 ==> PartFile(parts[i], clean) in r.value
    ensures r.Ok? ==> forall f :: f in r.value ==>
      exists i :: 0 <= i < |parts| && |parts[i].files| > 0 && parts[i].files[0].open.Ok? && f == PartFile(parts[i], clean)
    ensures r.Ok? ==> |r.value| <= |parts|
    ensures r.Err? ==> exists i :: (0 <= i < |parts| && !Opens(parts[i]) &&
      (forall j :: 0 <= j < i ==> Opens(parts[j])) &&
      r.error == PartError(parts[i].field, parts[i].files[0].open.error))
    decreases |parts|
  {
    if |parts| == 0 then Ok([])
    else
      var p := parts[0];
      var tail := parts[1..];
      assert forall i :: 1 <= i < |parts| ==> parts[i] == tail[i - 1];
      if |p.files| == 0 then
        Collect(tail, clean)
      else
        match p.files[0].open
        case Err(e) => Err(PartError(p.field, e))
        case Ok(content) =>
          match Collect(tail, clean)
          case Err(m) => Err(m)
          case Ok(files) =>
            var r := [PartFile(p, clean)] + files;
            assert forall f :: f in r ==> f == PartFile(p, clean) || f in files;
            Ok(r)
  }

  function FormError(e: string): string {
    "Error parsing multipart request: " + e
  }

  /** A multipart upload: the repository, the `ref` and `message` query
      values, and the parsed form or the error parsing it. */
  datatype FilesRequest = FilesRequest(
    organization: string, repository: string, ref: string, message: string,
    form: Result<seq<Part>>)

  /** The gateway's `uploadFiles`: a form that does not parse or a file that
      does not open gives 500 and nothing is committed; otherwise the files
      are committed as `add` does. */
  function UploadFiles(req: FilesRequest, clean: string -> string,
                       add: (string, string, seq<AddFile>, string) -> Option<string>,
                       marshal: string -> Result<string>): (r: seq<Event>)
    ensures StatusOf(r) == StatusNoContent || StatusOf(r) == StatusInternalServerError
    ensures StatusOf(r) == StatusNoContent <==>
      (req.form.Ok? && Collect(req.form.value, clean).Ok? &&
       add(RepoName.RepositoryId(req.organization, req.repository), req.ref,
           Collect(req.form.value, clean).value, req.message).None?)
  {
    match req.form
    case Err(e) => WriteError(StatusInternalServerError, FormError(e), marshal)
    case Ok(parts) =>
      match Collect(parts, clean)
      case Err(m) => WriteError(StatusInternalServerError, m, marshal)
      case Ok(files) =>
        AddReply(add(RepoName.RepositoryId(req.organization, req.repository), req.ref, files, req.message), marshal)
  }

  /** The older `uploadFiles`: the same, with paths as given, no branch, and
      the older error writer. */
  function LegacyUploadFiles(req: FilesRequest, add: (string, seq<AddFile>, string) -> Option<string>,
                             marshal: string -> Result<string>): (r: seq<Event>)
    ensures StatusOf(r) == StatusNoContent || StatusOf(r) == StatusInternalServerError
    ensures StatusOf(r) == StatusNoContent <==>
      (req.form.Ok? && Collect(req.form.value, Verbatim).Ok? &&
       add(RepoName.RepositoryId(req.organization, req.repository),
           Collect(req.form.value, Verbatim).value, req.message).None?)
  {
    match req.form
    case Err(e) => LegacyWriteError(StatusInternalServerError, FormError(e), marshal)
    case Ok(parts) =>
      match Collect(parts, Verbatim)
      case Err(m) => LegacyWriteError(StatusInternalServerError, m, marshal)
      case Ok(files) =>
        LegacyAddReply(add(RepoName.RepositoryId(req.organization, req.repository), files, req.message), marshal)
  }

  /** A field sent with several files contributes only the first. */
  lemma OnlyFirstFileUsed(field: string, first: string, second: string, clean: string -> string)
    ensures Collect([Part(field, [FileHeader(Ok(first), None), FileHeader(Ok(second), None)])], clean) ==
      Ok([AddFile(clean(field), first, 0)])
  {
    var parts := [Part(field, [FileHeader(Ok(first), None), FileHeader(Ok(second), None)])];
    assert parts[1..] == [];
    assert Collect(parts[1..], clean) == Ok([]);
    assert PartFile(parts[0], clean) == AddFile(clean(field), first, 0);
    assert [PartFile(parts[0], clean)] + [] == [PartFile(parts[0], clean)];
  }
}
