# git-service: a verified model of the authorization core

This project models the decision logic of a Git hosting service. The
service exposes repositories over Smart HTTP and SSH. Access is decided
by organization, template and team lookups against external directory
services. The model covers two trees of the service. `cmd/gits` is the
current one. `api/src/gits` is an older copy; it is modelled only where it
differs from `cmd/gits` or has no counterpart there.

What is modelled, module by module:

- `Permissions`: the access engine. It parses `org/...-templateId`, checks
  the template's owner and its ordered teams, and keeps the first failing
  team lookup as the error. `AccessWithLogin` is the single-identity path,
  and `LegacyAccess` is the older verb-less engine.
- `Gateway`: the HTTP gateway's credential checks. It covers the shared
  secret, deployment key versus login, and the `git:<templateId>` subject
  restriction. It also models the gate middlewares, their composition and
  the route chains of both trees.
- `PktLine`: Git's pkt-line framing, as defined by the pkt-line format of
  Git's protocol-common.txt, and the Smart HTTP response prefix.
- `RepoName`: repository-id sanitising.
- `DeploymentKey`: the deployment-key decoder. HMAC-SHA1, AES-256-CBC and
  PBKDF2 are oracles.
- `SshServer` and `GitCommand`: the SSH front end. This covers the
  per-connection user list, the channel rules and the request loop, with
  its `exit-status` payload. It also covers the parsing of `exec` commands.
- `Flags` and `Config`: endpoint construction from flags and the
  environment, in both trees, and configuration normalisation.
- `ExtApi`: the conversion of external-directory replies into access-engine
  inputs.
- `Handlers`, `Upload` and `Responses`: the older service's handlers and
  the upload handlers, as traces of calls on the response writer.
  `ResponseWrapper` is the capturing response writer.
- `RepoStatus`: `git show-ref` and `git show` output parsing and commit-hash
  recognition.
- `Subtrees`: subtree-spec validation and the plan of git commands that
  adds subtrees.
- `Util`: the maintenance switch and the error joiner.
- `Strings`, `Numerals` and `Wrappers`: the pieces of Go's standard library
  the code relies on, and the `Option`/`Result` encoding of Go errors.

Conventions of the model:

- A Go string is a `string` with one character per byte.
- A Go `error` is `Option<string>` or `Result<T>`, carrying the message the
  code formats.
- `log.Fatalf` is an `Err` result.
- External lookups, git runs, the file system and crypto primitives are
  oracle values passed in as parameters.
- Go's unspecified map iteration order is an explicit order parameter.

Where the repository's own description and the code disagree, the model
follows the code:

- The deployment-key decoder is described as extracting the subject. The
  code never does (see Findings).
- Repository ids are described as having two non-empty segments. The code
  gives `org/` for the repository name `.git`, and
  `RepoName.RepositoryIdSplits` allows that empty second segment.

## Model

| member | source | states |
|---|---|---|
| Config.FirstBadBlob | api/src/gits/config/vars.go:45-49 | none exactly when every blob prefix starts with `s3://`; otherwise the first prefix that does not |
| Config.Update | api/src/gits/config/vars.go:38-57 | succeeds exactly when every blob prefix is an S3 URL and the repository root is not `/`; the first bad prefix is the fatal error, then the root; on success trace implies debug implies verbose, an empty root becomes `.`, and every other setting is unchanged |
| Config.RootDir | api/src/gits/config/vars.go:52-53 | "starts with the separator and has length one" holds exactly for `/` |
| Config.UpdateIdempotent | api/src/gits/config/vars.go:38-57 | a second `Update` of an updated configuration returns the same result |
| DeploymentKey.Init | api/src/gits/api/token.go:37-44 | with verbose logging and a missing secret the state is kept; otherwise the secret is `<hub>\|<git>` and the encryption key is the PBKDF2 derivation of it |
| DeploymentKey.InitSecretNonEmpty | api/src/gits/api/token.go:42 | a derived secret is never empty, so the "not initialized" error cannot follow a completed `Init` |
| DeploymentKey.AcceptedLengths | api/src/gits/api/token.go:18-52 | the length gate passes exactly the hex lengths 136 and 168 |
| DeploymentKey.ByteListText | api/src/gits/api/token.go:72 | the `%v` text of a byte slice is bracketed |
| DeploymentKey.NewCipherError | api/src/gits/api/token.go:77-80 | the AES cipher is refused exactly when the key is not 16, 24 or 32 bytes |
| DeploymentKey.Unseal | api/src/gits/api/token.go:50-83 | a bad length is reported with the length; valid length with a non-hex digit gives the hex decoder's invalid-byte error; an uninitialised secret is refused; on success the MAC error is None exactly when the tag verifies, and the material is the CBC decryption of the bytes after the MAC |
| DeploymentKey.UserIdOf | api/src/gits/api/token.go:85-87 | a user id exists exactly when the separator occurs after the first byte, and it is the text before it |
| DeploymentKey.Decode | api/src/gits/api/token.go:46-98 | a failed step yields the sentinel user, no subject and its error; a real user id only comes with a verified tag |
| DeploymentKey.SubjectNeverExtracted | api/src/gits/api/token.go:89-93 | as written the subject of every decoded key is empty |
| DeploymentKey.DecodeIntended | api/src/gits/api/token.go:46-98 | the corrected decoder: same errors; a non-empty subject only with a verified tag and never containing the separator |
| DeploymentKey.DecodeIntendedRecovers | api/src/gits/api/token.go:85-97 | for any verified key whose material is `user\|subject\|padding`, the corrected decoder returns exactly that user id and subject |
| DeploymentKey.DecodeLosesSubject | api/src/gits/api/token.go:89-93 | the same key through the decoder as written keeps the user id and loses the subject |
| ExtApi.ConvertTeams | cmd/gits/extapi/templates.go:73-80 | one team access per Hub team, in order, with id and name kept and write access exactly for the roles `admin` and `write` |
| ExtApi.TemplateById | cmd/gits/extapi/templates.go:37-82 | test mode gives the fixture template; a transport error, 404 ("No `id` template found"), any other non-200 status, a short or failed body read and a decoding failure are errors; a readable 200 reply succeeds exactly when its body decodes, and then carries the owner and the converted teams |
| ExtApi.TokenMatches | cmd/gits/extapi/keys.go:56-60 | one copy of the user per space-separated token equal to the presented key, and some copy exactly when the key is longer than 100 characters and is among the tokens |
| ExtApi.MatchingUsers | cmd/gits/extapi/keys.go:54-62 | every returned user has a listed key matching the presented one, and every user with such a key is returned |
| ExtApi.MatchingUsersAppend | cmd/gits/extapi/keys.go:55 | the matching users of a concatenated reply are those of each part, in reply order |
| ExtApi.UsersBySshKey | cmd/gits/extapi/keys.go:20-63 | test mode gives the fixed user list; 404 gives no users and no error; a transport error, another non-200 status, a short or failed read and a decoding failure are errors; a readable 200 reply succeeds exactly when its body decodes, and then the users are exactly those holding a matching key |
| ExtApi.ActiveMembers | api/src/gits/extapi/teams.go:63-68 | a member id is returned exactly when some member with that id has status `ACTIVE` |
| ExtApi.ActiveMembersAppend | api/src/gits/extapi/teams.go:64 | the filter of a concatenated member list is the concatenation of the filters, in reply order |
| ExtApi.UsersByTeam | api/src/gits/extapi/teams.go:23-70 | test mode knows only team `1`; a request that cannot be built, a transport error, a 404, another non-200 status, a short or failed read and a decoding failure are errors, each with its message; a readable 200 reply succeeds exactly when its body decodes, and success is the active members |
| Flags.LookupEnv | api/src/gits/flags/parse.go:88-98 | no variable named gives the empty string; a named variable must exist and then gives its value, which may be empty; a missing one is the fatal message naming the flag and the variable |
| Flags.Scheme | api/src/gits/flags/parse.go:123-126 | the scheme is `https` exactly for port 443, and `http` otherwise |
| Flags.PortSuffix | api/src/gits/flags/parse.go:127-131 | the port is left out of the URL exactly for 80 and 443, and is written as `:port` otherwise |
| Flags.EndpointUrlRoundTrip | api/src/gits/flags/parse.go:123-132 | the URL that `EndpointUrl` builds from a host without `:` and a port reads back as that host and that port |
| Flags.TlsExactlyOn443 | api/src/gits/flags/parse.go:123-126 | an endpoint URL uses `https://` exactly when the port is 443 |
| Flags.ParseEndpoint | api/src/gits/flags/parse.go:123-132 | the reader of an endpoint URL: defined exactly for `https://` and `http://` URLs; without a `:` after the scheme the port is the scheme's default, 443 or 80 |
| Flags.HostAndPort | api/src/gits/flags/parse.go:123-132 | always defined; without `:` the whole text is the host with the default port; otherwise host, `:` and port rebuild the text and the host holds no `:` |
| Flags.ParseScheme | api/src/gits/flags/parse.go:123-132 | reading back the scheme of a built URL gives the default port of that scheme and leaves the host and port text as written |
| Flags.ParseHttps | api/src/gits/flags/parse.go:124-125 | an `https://` URL defaults to port 443 |
| Flags.ParseHttp | api/src/gits/flags/parse.go:123 | an `http://` URL defaults to port 80 |
| Flags.HostAndPortOfSuffix | api/src/gits/flags/parse.go:127-132 | a host followed by the port as the URL writes it reads back as that host and port |
| Flags.SplitN2At | api/src/gits/flags/parse.go:132 | splitting once at a separator absent from the first part gives back the two parts |
| Flags.LookupEndpoint | api/src/gits/flags/parse.go:100-138 | the explicit endpoint wins; then a non-empty endpoint variable; then a URL from a non-empty host variable and the port variable, where a named but unset or empty port variable is fatal; otherwise the fatal "One of …" message |
| Flags.LookupEndpointFromHost | api/src/gits/flags/parse.go:112-133 | the URL built from the host and port variables names exactly that host and port, with TLS on 443 |
| Flags.LegacyLookupEndpoint | api/src/gits/flags.go:90-122 | the older lookup as written: an explicit endpoint wins; a missing host variable and an unset host are fatal; on success the URL is always `http://host`, whatever the port variable holds |
| Flags.LegacyEndpointLosesPort | api/src/gits/flags.go:103-109 | a host on port 8443 is addressed as `http://hub`, on port 80 |
| Flags.LegacyLookupEndpointIntended | api/src/gits/flags.go:90-122 | the corrected older lookup fails exactly where the written one does, and otherwise builds the URL with the port from the port variable |
| Flags.ExternalSettings | api/src/gits/flags/parse.go:71-79 | the external secrets and endpoints are looked up in source order, the first fatal lookup ends start-up, and the blob prefixes and API secret are untouched |
| Flags.BlobsFrom | api/src/gits/flags/parse.go:81-83 | an empty flag keeps the configured prefixes; otherwise the prefixes contain no `,` and joined with `,` give back the flag |
| Flags.Parse | api/src/gits/flags/parse.go:68-86 | a missing API secret variable is fatal; with external calls off the endpoints and secrets are kept as given, with them on the hub endpoint is the lookup's result; blob prefixes are the flag's; the verbosity implications of `Update` hold |
| Flags.NoExtCallsReadsOnlySecret | api/src/gits/flags/parse.go:70-79 | with external calls off only the API secret's variable matters: two environments that agree on it parse alike |
| Flags.LegacyParse | api/src/gits/flags.go:13-76 | the older `parseFlags` as written: with external calls on, the endpoints come from the lookups on host variables, and the `-hub_api` value is not used |
| Flags.LegacyParseWith | api/src/gits/flags.go:62-75 | the older post-processing with a given lookup: the API secret error comes first, the endpoints are the lookup's results, and the blob prefixes are the flag's |
| Flags.LegacyExternal | api/src/gits/flags.go:63-69 | the external settings of the older code: the endpoints are the lookup's results and the blob prefixes are untouched |
| Flags.LegacyParseIgnoresHubApi | api/src/gits/flags.go:16-67 | with `-hub_api` given and no host variable set, the written code fails start-up with the missing host variable message |
| Flags.LegacyParseIntended | api/src/gits/flags.go:13-76 | the corrected older parse keeps explicit `-hub_api` and `-auth_api` endpoints and otherwise uses the port variable |
| Flags.LegacyParseIntendedAcceptsHubApi | api/src/gits/flags.go:16-67 | the configuration the written code refuses starts up, with the hub endpoint that was given |
| GitCommand.Listed | api/src/gits/repo/git.go:91-98 | the allow-list scan succeeds exactly when the verb is in the list |
| GitCommand.AllowedVerb | api/src/gits/repo/git.go:89-98 | the allowed verbs are exactly `git-receive-pack`, `git-upload-archive` and `git-upload-pack` |
| GitCommand.NormaliseRepo | api/src/gits/repo/git.go:32-35 | the repository part with leading quotes and slashes and trailing quotes trimmed, and one `.git` suffix removed; it never starts with a quote or a slash |
| GitCommand.NormaliseQuoted | api/src/gits/repo/git.go:32-35 | a name as git clients quote it (`'name.git'`, `'/name'`, …) normalises back to the name |
| GitCommand.TrimLeftPrefix | api/src/gits/repo/git.go:33 | trimming a prefix made only of cut characters gives back the rest |
| GitCommand.TrimRightSuffix | api/src/gits/repo/git.go:34 | trimming a suffix made only of cut characters gives back the body |
| GitCommand.GitServer | api/src/gits/repo/git.go:18-72 | a command without a space is "Unknown repo name in %q"; a verb outside the list is "%q is not allowed Git sub-command"; the process is spawned exactly when the verb is allowed and access is granted, as `verb .` in the normalised repository under the root |
| GitCommand.VerbBeforeAccess | api/src/gits/repo/git.go:27-40 | a verb outside the list is refused before access is consulted, whatever the access decision |
| GitCommand.SpawnReflectsCommand | api/src/gits/repo/git.go:22-72 | the command is recovered from the spawn: it starts with the spawned verb and a space, and its rest normalises to the spawned repository |
| Gateway.CheckApiSecret | cmd/gits/api/http.go:208-232 | with no secret configured every request passes; otherwise a request passes exactly when `X-API-Secret` holds the secret or Basic-Auth credentials are present and either field equals it |
| Gateway.CheckGitService | cmd/gits/api/git.go:23-28 | a service passes exactly when it is `git-upload-pack` or `git-receive-pack` |
| Gateway.HttpServicesWithinSshVerbs | cmd/gits/api/git.go:23-28 | every HTTP service is a verb the SSH server allows, and the only SSH verb the HTTP gateway refuses is `git-upload-archive` |
| Gateway.ChooseDeploymentKey | cmd/gits/api/git.go:46-51 | a key is chosen exactly when the username or the password is at least 136 characters, and the username takes precedence |
| Gateway.SubjectAllows | cmd/gits/api/git.go:64-77 | an empty subject restricts nothing; otherwise access needs the subject to be `git:` followed by the repository's template id |
| Gateway.KeyAccess | cmd/gits/api/git.go:55-77 | a deployment key grants access exactly when it decoded without error, the engine grants its user, and the subject allows the repository |
| Gateway.CheckUserRepoAccess | cmd/gits/api/git.go:37-88 | no Basic-Auth denies; a chosen key decides through `KeyAccess`; otherwise the sign-in access decides, and an error denies |
| Gateway.CheckApiSecretOrUserAuth | cmd/gits/api/http.go:234-239 | the shared secret lets the request in; without it, user access decides |
| Gateway.SecretBypassesUserAccess | cmd/gits/api/http.go:234-239 | a request that carries the secret is let in whatever the directory services, the decoder or the repository name say |
| Gateway.KeyAccessWithWrittenDecoder | cmd/gits/api/git.go:55-77 | with the decoder as written a key grants exactly what the engine grants its decoded user, so the subject restriction never applies |
| Gateway.DecodeErrorDenies | cmd/gits/api/git.go:59-62 | a key whose decoding failed denies, whatever the engine says |
| Gateway.MaintenanceReply | cmd/gits/api/http.go:110-115 | the maintenance answer has status 503 and the maintenance message as its body |
| Gateway.Check | cmd/gits/api/http.go:32-120 | only the gzip gate changes the request it passes; a stopping gate answers 401, 404, 400, 503 or 500 |
| Gateway.ThroughConcat | cmd/gits/api/http.go:22-30 | `Through` composes: running the gates of `a` then those of `b` is running `a + b`: `mw` nests its middlewares outermost first |
| Gateway.ServeNested | cmd/gits/api/http.go:22-30 | `Serve` through `a + b` is serving through `a` to a handler that serves through `b`, the nesting `mw(m1, m2)(h) = m1(m2(h))` |
| Gateway.RefusedNotHandled | cmd/gits/api/http.go:22-30 | when a gate refuses, `Serve` answers the same whatever the handler: the handler is never reached |
| Gateway.FlattenPartsAppend | cmd/gits/api/http.go:22-30 | `Flatten`: the gates of a composition are the gates of its parts, in order |
| Gateway.FlattenUses | cmd/gits/api/http.go:22-30 | a composition of single middlewares flattens to those gates |
| Gateway.SharedGates | cmd/gits/api/http.go:129-148 | the git routes share logger, auth, allowed service and existence; the repository routes share logger, secret and existence |
| Gateway.PackGates | cmd/gits/api/http.go:152-154 | the pack route runs the git gates, then maintenance, then the gzip reader |
| Gateway.ChangeGates | cmd/gits/api/http.go:132-139 | delete, both uploads and subtrees run logger, secret, existence, then maintenance |
| Gateway.CreateAndPingGates | cmd/gits/api/http.go:130-158 | creation runs logger, secret and maintenance without the existence gate; ping only logs |
| Gateway.SingleGates | cmd/gits/api/http.go:22-30 | `mw` of single middlewares flattens to those gates |
| Gateway.OnePart | cmd/gits/api/http.go:22-30 | `mw(a, b)` runs the gates of `a`, then those of `b` |
| Gateway.TwoParts | cmd/gits/api/http.go:22-30 | `mw(a, b, c)` runs the gates of `a`, `b`, then `c` |
| Gateway.PackThrough | cmd/gits/api/http.go:148-154 | a pack request is refused by the first failing check in the order auth, service, existence, maintenance, and otherwise meets the gzip gate |
| Gateway.PackTail | cmd/gits/api/http.go:81-120 | after authentication, the pack gates refuse in the order service, existence, maintenance, then the gzip gate decides |
| Gateway.PackDecision | cmd/gits/api/http.go:148-154 | the pack route answers the auth challenge, 400, 404, 503 or 500 at the first failing gate, and otherwise hands the handler the request with its body decompressed when it was gzip |
| Gateway.InfoRefsThrough | cmd/gits/api/http.go:148-151 | an info/refs request is refused by the first failing of auth, service and existence, and otherwise passes unchanged |
| Gateway.InfoRefsDecision | cmd/gits/api/http.go:148-151 | the info/refs route has no maintenance gate, so the advertisement is served during maintenance too |
| Gateway.CreateDecision | cmd/gits/api/http.go:130-131 | creation answers 401 without the secret and 503 in maintenance, and otherwise reaches the handler whether or not the repository exists |
| Gateway.ChangeThrough | cmd/gits/api/http.go:129-139 | a changing request is refused at the first failing of secret, existence and maintenance |
| Gateway.ChangeDecision | cmd/gits/api/http.go:132-139 | the changing routes answer 401, 404 or 503 at the first failing gate and otherwise reach the handler |
| Gateway.ThroughCons | cmd/gits/api/http.go:22-30 | `Through`: the first gate decides; a stop is the answer, and a pass hands its request to the rest |
| Gateway.RouteFlattens | cmd/gits/api/http.go:126-158 | the nested middlewares of each `Route` flatten to its gates in order, as `getRouter` composes them |
| Gateway.RouteCallers | cmd/gits/api/http.go:126-158 | every route logs first; exactly the git routes authenticate users and check the service; exactly the routes other than the git routes and ping check the API secret |
| Gateway.RouteChecks | cmd/gits/api/http.go:126-158 | exactly the routes other than creation and ping check that the repository exists; exactly creation, delete, both uploads, subtrees and pack check maintenance; only pack reads gzip |
| Gateway.LifecycleThrough | cmd/gits/api/http.go:129 | a reading request is refused at the first failing of secret and existence |
| Gateway.ReadDecision | cmd/gits/api/http.go:140-145 | blob, log and status answer 401 or 404 at the first failing gate and are served during maintenance |
| Gateway.PingAnswers | cmd/gits/api/http.go:156-167 | ping always answers 200 with the body `pong` |
| Gateway.UploadPackInfoRefs | cmd/gits/api/git.go:90-118 | an authorised upload-pack advertisement starts with the framed line `001e# service=git-upload-pack\n` and a flush, in maintenance or not |
| Gateway.LegacyCheckApiSecret | api/src/gits/api/http.go:120-139 | the older check: no secret passes; otherwise the header, the URL's username, or a URL password that is set must equal the secret |
| Gateway.SecretChecksAgree | api/src/gits/api/http.go:120-139 | when the URL carries the credentials of the `Authorization` header, the older and newer checks agree |
| Gateway.LegacyRoute | api/src/gits/api/http.go:52-89 | every older route starts with the logger and the secret check, and the git routes exist only for the upload service |
| Gateway.LegacyServe | api/src/gits/api/http.go:52-89 | an unknown route answers 404, and a known route without the secret answers 401 |
| Gateway.LegacyNoPush | api/src/gits/api/http.go:70-88 | the older service answers 404 to every receive-pack request over HTTP |
| Handlers.Classify | api/src/gits/api/blob.go:27-36 | the status of an error is that of the first rule whose text the error contains, and 500 when none does |
| Handlers.BlobStatusTable | api/src/gits/api/blob.go:27-36 | `sendRepoBlob` maps "not found" to 404, "is a directory" to 400, "not a regular file" to 409 and "file too big" to 501, in that order, and anything else to 500 |
| Handlers.SendRepoBlob | api/src/gits/api/blob.go:16-47 | the blob of the cleaned path at the ref is sent as an octet stream with 200; a failed read answers JSON with the status its error classifies to |
| Handlers.CreateStatusTable | api/src/gits/api/create.go:42-49 | `createRepo` maps "exist" to 409, "not supported" to 400 and "S3" to 504, in that order, and anything else to 500 |
| Handlers.CreateArchive | api/src/gits/api/create.go:27-36 | a body of at most four bytes asks for an empty repository without being decoded; a longer body must decode, and its archive is used |
| Handlers.CreateRepo | api/src/gits/api/create.go:20-57 | an unreadable body is 500 and bad JSON is 400; otherwise a failed creation gets the status of its error; the answer is 201 exactly when the body was read, decoded and the repository created |
| Handlers.ClassifyNotCreated | api/src/gits/api/create.go:42-50 | no error of the create table is answered 201 |
| Handlers.ShortBodyNotDecoded | api/src/gits/api/create.go:27-28 | a body of at most four bytes is answered the same whatever the JSON decoder would say, and is 201 when the empty repository is created |
| Handlers.StatusStatusTable | api/src/gits/api/status.go:27-32 | `sendRepoStatus` maps "not found" to 404 and "multiple refs" to 409, in that order, and anything else to 500 |
| Handlers.SendRepoStatus | api/src/gits/api/status.go:16-47 | a failed lookup gets the status of its error, even when a partial status came with it; a status that cannot be marshalled is 500; otherwise 200 with the JSON |
| Handlers.UnknownRefIsNotFound | api/src/gits/api/status.go:22-33 | a ref that `git show-ref` does not know and that is not a commit hash is answered 404 |
| Handlers.NotFoundClassified | api/src/gits/api/status.go:28-29 | the "not found" error of a ref is classified as 404 |
| Handlers.SubtreesReply | api/src/gits/api/subtrees.go:44-55 | a successful addition is 204; a failure is 409 when its error says "exist" and 500 otherwise |
| Handlers.ExistingSubtreeConflicts | api/src/gits/api/subtrees.go:49-51 | a prefix that already exists in the clone is answered 409 |
| Handlers.AddSubtreesHandler | api/src/gits/api/subtrees.go:20-56 | an unreadable body is 500, bad JSON or an empty list is 400, all before the repository is touched; otherwise the outcome of `AddSubtrees` decides between 204, 409 and 500 |
| Numerals.Format | cmd/gits/api/git.go:112 | `strconv.FormatInt` of a non-negative number: at least one digit, every digit valid in the base and lower-case, no leading zero unless the number is 0 |
| Numerals.ValueOfFormat | cmd/gits/api/git.go:112 | reading a formatted number back in its base gives the number |
| Numerals.FormatInjective | cmd/gits/api/git.go:112 | different numbers are formatted differently |
| Numerals.FormatLength | cmd/gits/api/git.go:112-116 | a number fits in `k` digits exactly when it is below `base^k`, so four hex digits hold any length below 65536 |
| Numerals.ValueLeadingZeros | cmd/gits/api/git.go:113-116 | zero-padding on the left does not change the value of a digit string |
| Numerals.Itoa | api/src/gits/repo/subtrees.go:126 | `%d`: the decimal digits of the number, with a `-` in front when it is negative |
| Numerals.HexDecode | api/src/gits/api/token.go:57 | `hex.DecodeString` succeeds exactly on even-length strings of hex digits; the result has half as many bytes, each one spelled by its two digits, high digit first |
| Numerals.HexEncode | api/src/gits/repo/status.go:72-83 | two lower-case hex digits per byte, high digit first |
| Numerals.HexRoundTrip | api/src/gits/api/token.go:57 | decoding the hex encoding of any bytes gives back those bytes |
| Numerals.FirstNonHex | api/src/gits/api/token.go:57-60 | no position is found exactly when every character is a hex digit; otherwise it is the first position holding a character that is not a hex digit |
| Numerals.Utf8Of | api/src/gits/api/token.go:57-60 | the UTF-8 bytes of the rune with a byte's value: the byte itself below 0x80, otherwise a lead byte 0xC2 or 0xC3 and a continuation byte that decode back to the value |
| Numerals.RuneText | api/src/gits/api/token.go:57-60 | `%#U` of a byte: `U+` and four upper-case hex digits spelling its value, then, exactly when it is printable, the character UTF-8 encoded in single quotes |
| Numerals.HexDecodeError | api/src/gits/api/token.go:57-60 | the error for an even-length string that is not all hex names the first non-hex character as `%#U` |
| Numerals.InvalidByteReported | api/src/gits/api/token.go:57-60 | for `0g` the error is "encoding/hex: invalid byte: U+0067 'g'" |
| Numerals.LatinByteQuotedAsUtf8 | api/src/gits/api/token.go:57-60 | the byte 0xE9 is written `U+00E9 'é'`, the letter as its two UTF-8 bytes C3 A9 |
| Permissions.OrgId | cmd/gits/repo/permissions.go:15-21 | the organization id is the non-empty, slash-free text before the first `/`, which is not the last character; otherwise the "Unable to determine stack organization id" error |
| Permissions.OrgIdComplete | cmd/gits/repo/permissions.go:15-21 | every `<org>/<rest>` with a non-empty slash-free org and non-empty rest yields `org` |
| Permissions.TemplateId | cmd/gits/repo/permissions.go:23-29 | the template id is the non-empty, dash-free text after the last `-`, which sits after position 1; otherwise the "Unable to determine stack template id" error |
| Permissions.TemplateIdComplete | cmd/gits/repo/permissions.go:23-29 | every `<prefix>-<id>` with a prefix of two or more characters and a dash-free id yields `id` |
| Permissions.ParseRepo | cmd/gits/repo/permissions.go:32-39 | both ids parse, or the error of the first that does not, organization first |
| Permissions.ResolveTemplate | cmd/gits/repo/permissions.go:41-52 | the template resolves exactly when the organization exists and shows source and the template exists; each failure carries its own message |
| Permissions.TeamIds | cmd/gits/repo/permissions.go:58-59 | the team ids of a template, in order |
| Permissions.MembersOf | cmd/gits/repo/permissions.go:66-68 | one grant per member of a team, with the team's write flag |
| Permissions.CollectGrants | cmd/gits/repo/permissions.go:57-70 | the team loop reports no error exactly when every team lookup succeeds |
| Permissions.GrantsSound | cmd/gits/repo/permissions.go:57-70 | every grant comes from a team whose lookup succeeded, lists the user, and carries the team's write flag |
| Permissions.GrantsComplete | cmd/gits/repo/permissions.go:57-70 | every member of every team that resolves is granted with the team's write flag |
| Permissions.GrantsFirstError | cmd/gits/repo/permissions.go:60-64 | the error kept is that of the first team whose lookup failed |
| Permissions.AnyMatch | cmd/gits/repo/permissions.go:74-80 | the nested loop succeeds exactly when some presented user holds a grant fit for the request |
| Permissions.GrantMatches | cmd/gits/repo/permissions.go:75-79 | the inner loop succeeds exactly when one grant names the user and allows writing if a write is asked |
| Permissions.EntitledHasGrant | cmd/gits/repo/permissions.go:54-80 | a user who owns the template or belongs to a team fit for the request finds a matching grant |
| Permissions.GrantImpliesEntitled | cmd/gits/repo/permissions.go:54-80 | a matching grant belongs to a user who owns the template or belongs to a fit team |
| Permissions.GrantsDecideEntitlement | cmd/gits/repo/permissions.go:54-80 | the owner grant plus the team grants decide exactly the rule "owner, or member of a team fit for the request" |
| Permissions.Resolve | cmd/gits/repo/permissions.go:32-52 | the template of a request: parse errors first, then the organization and template lookups |
| Permissions.Access | cmd/gits/repo/permissions.go:31-83 | a failure to resolve denies with its error; otherwise access is granted exactly when a presented user owns the template or belongs to a team fit for the request (writable for a push), and the error is the first failed team lookup |
| Permissions.OwnerAlwaysGranted | cmd/gits/repo/permissions.go:55 | the owner of a reachable template is let in, whatever the verb |
| Permissions.ReadVerbsAgree | cmd/gits/repo/permissions.go:72 | every verb except a push is judged like a fetch |
| Permissions.PushImpliesFetch | cmd/gits/repo/permissions.go:72-80 | whoever may push may fetch |
| Permissions.AccessMonotoneInUsers | cmd/gits/repo/permissions.go:74-80 | presenting more users never withdraws access |
| Permissions.AccessMonotoneInMembers | cmd/gits/repo/permissions.go:57-80 | team lookups that succeed wherever the old ones did, with at least the old members, never withdraw access |
| Permissions.HiddenSourceDenies | cmd/gits/repo/permissions.go:45-47 | an organization that hides source denies everyone, with "Organization `id` has no source code access" |
| Permissions.GroupMatches | cmd/gits/repo/permissions.go:123-129 | the loop succeeds exactly when one of the user's groups names a template team fit for the request |
| Permissions.TeamNamed | cmd/gits/repo/permissions.go:124-128 | the inner loop succeeds exactly when a template team has the name and allows writing if a write is asked |
| Permissions.AccessWithLogin | cmd/gits/repo/permissions.go:85-132 | a grant comes without error; parse errors, a failed sign-in and an organization mismatch deny with their messages; access is granted exactly when the ids parse, the user signs in, the template resolves, the organizations match, and the user owns the template or has a group naming a fit team |
| Permissions.LegacyTemplateById | api/src/gits/api/templates.go:13-18 | any id starting with `1` names the template of `arkadi` with teams `1` and `2`; others are not found |
| Permissions.LegacyUsersByTeam | api/src/gits/api/teams.go:7-12 | only team `1` exists, and it lists `arkadi` and `rick` among others |
| Permissions.CollectMembers | api/src/gits/repo/permissions.go:25-35 | a user is collected exactly when some team lookup succeeded and lists it, and the error kept is that of the first failed lookup |
| Permissions.FirstErrorAfterSuccessIds | api/src/gits/repo/permissions.go:28-32 | the first failed lookup among the later teams stays first when the leading lookup succeeds |
| Permissions.AnyListed | api/src/gits/repo/permissions.go:37-43 | the nested loop succeeds exactly when some presented user is among the granted ids |
| Permissions.LegacyAccess | api/src/gits/repo/permissions.go:10-46 | a bad name or a missing template denies with its message; otherwise access is granted exactly when a user owns the template or is a member of one of its teams, whatever the verb, and the error is the first failed team lookup |
| Permissions.LegacyFixtureMembers | api/src/gits/api/teams.go:7-12 | with the fixed lookups team `1` contributes its members and team `2` its "No `2` team found" error |
| Permissions.LegacyFixtureTemplateId | cmd/gits/repo/permissions.go:23-29 | `org/stack-1a` names template `1a` |
| Permissions.LegacyFixtureScenario | api/src/gits/repo/permissions.go:37-45 | with the fixed lookups `rick` is let into `org/stack-1a`, and the missing team `2` is reported alongside |
| PktLine.PaddedHex | cmd/gits/api/git.go:112-116 | lower-case hex digits, at least four and a multiple of four, whose value is the number; exactly four below 0x10000 |
| PktLine.ZerosToFour | cmd/gits/api/git.go:113-116 | the zeros added bring the digit count to a multiple of four, and to exactly four for one to four digits |
| PktLine.FourDigits | cmd/gits/api/git.go:112 | every length below 0x10000 takes at most four hex digits |
| PktLine.GitRpcPacket | cmd/gits/api/git.go:111-118 | the payload, preceded by a padded hex header whose value is the payload length plus four; the header is exactly four digits when that length fits |
| PktLine.PrefixValue | cmd/gits/api/git.go:115 | left-padding with zeros keeps the hex value |
| PktLine.ReadPkt | cmd/gits/api/git.go:111-118 | reading a packet off a stream consumes at least its header |
| PktLine.ReadGitRpcPacket | cmd/gits/api/git.go:111-118 | a pkt-line reader gets back exactly the framed payload and the rest of the stream, for every payload that fits a four-digit header |
| PktLine.ReadFlush | cmd/gits/api/git.go:103 | `0000` reads as the flush packet |
| PktLine.RefsInfo | cmd/gits/api/git.go:90-109 | `no-cache` and the advertisement content type, status 200, then the framed service line, a flush and the advertisement |
| PktLine.AppendWrites | cmd/gits/api/git.go:102-105 | writes after the status keep the status and extend the body |
| PktLine.UploadPackHeader | cmd/gits/api/info_refs_test.go:44 | the upload service's announcement frames to the header `001e` |
| PktLine.UploadPackAnnouncement | cmd/gits/api/info_refs_test.go:44-57 | the upload service's info/refs body begins with `001e# service=git-upload-pack\n0000` |
| PktLine.UploadPackReadBack | cmd/gits/api/git.go:99-105 | a client reading that body gets the announcement packet, then a flush, then the advertisement |
| PktLine.Pack | cmd/gits/api/git.go:120-136 | the result content type, status 200, then git's output as the body |
| RepoName.CollapseFrom | cmd/gits/api/http.go:241-245 | the left-to-right replacement scan never lengthens its input |
| RepoName.Collapse | cmd/gits/api/http.go:241-245 | replacing each maximal run of characters outside `[a-z0-9-]` by one `-` never lengthens the name |
| RepoName.CollapseFromAllAllowed | cmd/gits/api/http.go:241-245 | only characters of `[a-z0-9-]` survive the replacement |
| RepoName.Sanitize | cmd/gits/api/http.go:243-245 | a sanitized name holds only `[a-z0-9-]` and is no longer than the name |
| RepoName.CollapseFromAllowed | cmd/gits/api/http.go:241-245 | the scan keeps a string of allowed characters as it is |
| RepoName.CollapseAllowed | cmd/gits/api/http.go:241-245 | a name made only of allowed characters is left as it is |
| RepoName.RunVanishes | cmd/gits/api/http.go:241-245 | inside a run of disallowed characters nothing after its first character is kept |
| RepoName.CollapseRun | cmd/gits/api/http.go:241-245 | a non-empty run of disallowed characters becomes exactly one `-` |
| RepoName.CollapseSplitsAfterAllowed | cmd/gits/api/http.go:241-245 | replacement never reaches across an allowed character, which with the two lemmas above fixes the result run by run |
| RepoName.CollapseFromSplits | cmd/gits/api/http.go:241-245 | the scan of `a + b`, where `a` ends allowed, is the scan of `a` then a fresh scan of `b` |
| RepoName.ToLowerAllowed | cmd/gits/api/http.go:244 | lower-casing leaves allowed characters unchanged |
| RepoName.SanitizeIdempotent | cmd/gits/api/http.go:243-245 | sanitizing a sanitized name changes nothing |
| RepoName.SanitizeFixedPoints | cmd/gits/api/http.go:243-245 | sanitizing is the identity exactly on names made of `[a-z0-9-]` |
| RepoName.RepositoryIdSplits | cmd/gits/api/http.go:247-251 | a `RepositoryId` has exactly one `/`, between the sanitized organization and the sanitized repository without `.git` |
| RepoName.DotGitSuffixIgnored | cmd/gits/api/http.go:250 | `repo` and `repo.git` name the same repository |
| RepoName.TrimDotGit | cmd/gits/api/http.go:250 | trimming `.git` from `repo.git` gives `repo` |
| RepoName.RepositoryIdOfClean | cmd/gits/api/http.go:247-251 | an id of already-sanitized parts is the parts joined by `/` |
| RepoStatus.DefaultRef | api/src/gits/repo/status.go:23-25 | the ref used is never empty: an empty ref means `master`, any other is kept |
| RepoStatus.GuessIsCommitHash | api/src/gits/repo/status.go:72-83 | a ref is taken for a hash exactly when it is 40 hex digits of either case |
| RepoStatus.EncodedHashRecognised | api/src/gits/repo/status.go:72-83 | the hex encoding of any 20-byte commit id is taken for a hash |
| RepoStatus.ShowRefLine | api/src/gits/repo/status.go:105-108 | a line splits exactly when it holds a space, into a space-free hash and the rest, which rejoin to the line |
| RepoStatus.ShowRefPairs | api/src/gits/repo/status.go:104-111 | every pair comes from a line that holds a space, and output without such lines gives none |
| RepoStatus.ShowRefPairsAppend | api/src/gits/repo/status.go:104-111 | pairs are collected line by line, in order |
| RepoStatus.ShowRefPairsOne | api/src/gits/repo/status.go:104-111 | a single line gives its split, or nothing |
| RepoStatus.MultipleRefs | api/src/gits/repo/status.go:116 | the ambiguity error starts "Ref `ref` refer to multiple refs " |
| RepoStatus.CommitByRef | api/src/gits/repo/status.go:85-120 | no output is "not found"; a failed run with output gives its error; the answer is a pair exactly when the run succeeded with exactly one line holding a space, and that line is the pair; no such line is "not found" and more than one is "multiple refs" |
| RepoStatus.FirstSpace | api/src/gits/repo/status.go:105 | a line splits at its first space in one way only |
| RepoStatus.CommitByRefOneLine | api/src/gits/repo/status.go:85-120 | the output of `git show-ref` for one ref, ended by a newline, reads back as that hash and ref |
| RepoStatus.CommitByRefTwoLines | api/src/gits/repo/status.go:115-117 | two printed refs are reported as ambiguous |
| RepoStatus.LineAt | api/src/gits/repo/status.go:57-68 | the line at a position, or empty past the end |
| RepoStatus.ResolveCommit | api/src/gits/repo/status.go:28-37 | a hash-like ref is used as it is with no canonical ref; any other goes through `commitByRef` |
| RepoStatus.ShowStatus | api/src/gits/repo/status.go:39-69 | the partial status always names the commit and canonical ref; no output is "Git show `c` returned no output", a failed run keeps its error; success reads date, author and subject from the first three lines |
| RepoStatus.ReadStatus | api/src/gits/repo/status.go:22-70 | a ref that cannot be resolved gives no status and the resolution error; otherwise the status of the resolved commit |
| RepoStatus.UnknownRefReadsNotFound | api/src/gits/repo/status.go:31-96 | a ref that is not hash-like and that `git show-ref` does not print is "not found", with no status |
| RepoStatus.HashSkipsShowRef | api/src/gits/repo/status.go:28-31 | for a hash-like ref `git show-ref` is never consulted |
| RepoStatus.ShowFieldsRoundTrip | api/src/gits/repo/status.go:45-69 | the three lines written by the `--pretty` format read back as date, author and subject |
| ResponseWrapper.NewCapturing | cmd/gits/api/response_wrapper.go:21-32 | a fresh wrapper records status 200 and no header snapshot, and has an empty buffer exactly when capture is on |
| ResponseWrapper.CopyHeaders | cmd/gits/api/response_wrapper.go:49-58 | the snapshot is taken once from the live headers and never replaced |
| ResponseWrapper.Step | cmd/gits/api/response_wrapper.go:34-47 | `WriteHeader` records and forwards its status; `Write` forwards its data and buffers it only when the real writer accepted it and capture is on; both take the snapshot; header calls only change the live headers |
| ResponseWrapper.Replay | cmd/gits/api/response_wrapper.go:34-47 | one forwarded event per call |
| ResponseWrapper.ReplayForwards | cmd/gits/api/response_wrapper.go:34-46 | the wrapper is transparent: the real writer receives exactly the calls, in order |
| ResponseWrapper.ReplayStatus | cmd/gits/api/response_wrapper.go:21-38 | the recorded status is the last one written, starting from 200 |
| ResponseWrapper.SnapshotKept | cmd/gits/api/response_wrapper.go:50-52 | once taken, the header snapshot never changes |
| ResponseWrapper.SnapshotAtFirstWrite | cmd/gits/api/response_wrapper.go:34-58 | starting without a snapshot, the snapshot is the live headers as they stood at the first `WriteHeader` or `Write`, and none is taken without one |
| ResponseWrapper.ReplayBuffer | cmd/gits/api/response_wrapper.go:27-45 | with capture on the buffer grows by exactly the accepted writes; with capture off there is never a buffer |
| Responses.StatusFirstSeen | cmd/gits/api/http.go:204-205 | when one status is sent before any body byte, it is the status the client sees |
| Responses.BodyOfConcat | cmd/gits/api/http.go:204-205 | the body of two traces in sequence is the two bodies in sequence |
| Responses.StatusOfConcat | cmd/gits/api/http.go:204-205 | once a status or a body byte has gone out, later events do not change the status the client sees |
| Responses.RespondSeen | cmd/gits/api/http.go:163-167 | the handler shape "headers, status, body" delivers that status and that body |
| Responses.OneHeaderSeen | cmd/gits/api/http.go:164 | a single header set before the status is the value the client sees |
| Responses.WriteError | cmd/gits/api/http.go:186-206 | the gateway's error answer: the JSON `{"error": message}` with the given status, or 500 with the marshalling failure as plain text, the content type matching |
| Responses.LegacyWriteError | api/src/gits/api/http.go:104-118 | the older error answer: the status is sent first whatever the marshalling outcome, always as JSON; a marshalling failure becomes the body |
| Responses.WriteErrorVersionsAgree | cmd/gits/api/http.go:186-206 | both error answers are the same whenever marshalling succeeds |
| SshServer.CheckKey | cmd/gits/ssh/server.go:69-81 | a key signs in exactly when the lookup succeeds with some users; a failed lookup passes its error on, no users is "No users matching SSH key `print`", and every user found occurs in the stored string |
| SshServer.JoinContains | cmd/gits/ssh/server.go:80 | every user joined into the stored string occurs in it |
| SshServer.JoinStartsWith | cmd/gits/ssh/server.go:80 | the joined string starts with the first user |
| SshServer.JoinTail | cmd/gits/ssh/server.go:80 | the join is the first user, the separator, then the join of the rest |
| SshServer.ShiftIsAt | cmd/gits/ssh/server.go:80 | an occurrence in a suffix is an occurrence in the whole, shifted by the prefix |
| SshServer.UsersOf | cmd/gits/ssh/server.go:92 | splitting the stored string gives at least one user, none holding `,`, and joining them with `,` gives the string back |
| SshServer.StoredUsersRoundTrip | cmd/gits/ssh/server.go:80-92 | the users survive the trip through the connection's permissions when no user id contains `,` |
| SshServer.FixtureUsersSignIn | cmd/gits/ssh/server.go:69-92 | with external calls off any key signs in, and the connection carries exactly the fixture users |
| SshServer.Handle | cmd/gits/ssh/server.go:91-112 | maintenance is probed once per connection: while on, every channel is refused as prohibited with the message; otherwise a channel is refused exactly when it is not a session, and served exactly when it is a session that was accepted, with the stored users split at `,` |
| SshServer.NoSessionInMaintenance | cmd/gits/ssh/server.go:94-100 | no session is served while maintenance is on |
| SshServer.GitCommandOf | cmd/gits/ssh/server.go:114-120 | the command is a suffix of the payload; with `git-` present it starts with `git-` and nothing before it contains `git-`; otherwise it is the payload |
| SshServer.NoMatchBefore | cmd/gits/ssh/server.go:115 | no occurrence lies wholly before the first one |
| SshServer.GitCommandIdempotent | cmd/gits/ssh/server.go:114-120 | extracting the command twice is extracting it once |
| SshServer.ParseEnv | cmd/gits/ssh/server.go:139-150 | an `env` payload parses exactly when, with NULs removed, it splits into two parts at `\v`; the parts hold no NUL, the value no `\v`, and the name does not start with a backspace |
| SshServer.EnvPartsClean | cmd/gits/ssh/server.go:140-145 | neither part of a NUL-free payload, nor the name with its backspaces cut, holds a NUL |
| SshServer.JoinHasParts | cmd/gits/ssh/server.go:140 | the characters of a two-part join come from its parts |
| SshServer.Launch | cmd/gits/ssh/server.go:153-158 | the process runs exactly when `GitServer` accepts the extracted command under the access engine and the start succeeds |
| SshServer.LaunchGranted | cmd/gits/ssh/server.go:153 | a launched process runs an allowed verb on a repository the engine grants one of the connection's users |
| SshServer.ExitStatusAsWritten | cmd/gits/ssh/server.go:159-169 | the payload as sent: the status byte, then three zero bytes |
| SshServer.ReadUint32 | cmd/gits/ssh/server.go:169 | the SSH reading of four bytes, most significant first, lies in the 32-bit range |
| SshServer.ExitStatusMisread | cmd/gits/ssh/server.go:169 | as sent, a failure is read as status 16777216, whose low eight bits are 0 |
| SshServer.ExitStatusPayload | cmd/gits/ssh/server.go:169 | the intended payload: three zero bytes, then the status |
| SshServer.ExitStatusRoundTrip | cmd/gits/ssh/server.go:169 | the intended payload reads back as the status |
| SshServer.Answer | cmd/gits/ssh/server.go:154-170 | a reply saying whether the launch worked, then, only after a launch, the exit status as written: 1 when waiting failed, 0 otherwise |
| SshServer.Exec | cmd/gits/ssh/server.go:152-171 | the answer to an `exec` is the reply to launching its command and, after a launch, the exit status |
| SshServer.HandleRequests | cmd/gits/ssh/server.go:122-174 | the channel always ends closed; without an `exec` nothing else is sent; an `exec` first is answered, then the channel closes |
| SshServer.FirstExecDecides | cmd/gits/ssh/server.go:125-171 | the first `exec` decides the channel: its answer, then the close |
| SshServer.ExecEndsChannel | cmd/gits/ssh/server.go:171 | requests after the first `exec` are never looked at |
| SshServer.AnswerShape | cmd/gits/ssh/server.go:154-170 | an answer and the close form a well-shaped channel: at most one reply, an exit status only after a positive reply, and a status of 0 or 1 |
| SshServer.ExecShape | cmd/gits/ssh/server.go:152-171 | an `exec` and the close form a well-shaped channel |
| SshServer.ChannelShape | cmd/gits/ssh/server.go:122-174 | every channel is well shaped |
| SshServer.FirstExec | cmd/gits/ssh/server.go:125-152 | the index of the first `exec`: an `exec` with none before it |
| SshServer.OtherRequestsIgnored | cmd/gits/ssh/server.go:133-150 | an `env` request, well formed or not, or an unknown request type changes nothing |
| SshServer.LaunchDenied | cmd/gits/ssh/server.go:153-156 | a command whose repository the engine grants to none of the users is not launched |
| SshServer.DeniedGetsRefusal | cmd/gits/ssh/server.go:153-156 | a denied user gets a refusal and the close, with no exit status |
| SshServer.RefusedChannel | cmd/gits/ssh/server.go:152-171 | an `exec` whose command is not launched is refused and the channel closed |
| Strings.ContainsMiddle | api/src/gits/repo/subtrees.go:228 | `strings.Contains` finds each piece a string is made of |
| Strings.IndexFrom | cmd/gits/ssh/server.go:115 | -1 exactly when `sub` does not occur from position `k` on; otherwise the first occurrence from `k` |
| Strings.Index | cmd/gits/ssh/server.go:115 | `strings.Index`: -1 exactly when `sub` does not occur; otherwise the first position where it does |
| Strings.IndexOf | cmd/gits/repo/permissions.go:16 | `strings.Index` of one character: -1 exactly when it is absent; otherwise its first position |
| Strings.LastIndexOf | cmd/gits/repo/permissions.go:24 | `strings.LastIndex` of one character: -1 exactly when it is absent; otherwise its last position |
| Strings.IndexOfAfterPrefix | cmd/gits/repo/permissions.go:16 | in `a + [x] + b`, with no `x` in `a`, the first `x` is at position `\|a\|` |
| Strings.TrimSuffix | cmd/gits/api/http.go:250 | `strings.TrimSuffix`: with the suffix present the result followed by the suffix is the input; without it the input is unchanged |
| Strings.TrimLeft | api/src/gits/repo/git.go:33 | `strings.TrimLeft`: a suffix of the input, every removed character is in the cutset, and the result does not start with one |
| Strings.TrimRight | api/src/gits/repo/git.go:34 | `strings.TrimRight`: a prefix of the input, every removed character is in the cutset, and the result does not end with one |
| Strings.Split | cmd/gits/ssh/server.go:92 | `strings.Split` on one character: at least one part, no part holds the separator, and joining the parts gives the input back |
| Strings.SplitJoin | cmd/gits/ssh/server.go:80-92 | splitting the join of a non-empty list whose parts do not hold the separator gives back the list |
| Strings.SplitN2 | api/src/gits/repo/git.go:22 | `strings.SplitN(s, sep, 2)`: two parts exactly when the separator occurs, the first part holding none of it and the parts rejoining to the input; otherwise the input alone |
| Strings.RemoveAll | cmd/gits/ssh/server.go:140 | removing every occurrence of a character leaves none, and every other character is kept |
| Strings.Repeat | cmd/gits/api/git.go:115 | `strings.Repeat`: `n` copies of the character |
| Strings.ToLower | cmd/gits/api/http.go:244 | each character is mapped by its ASCII lower-case mapping; the length is kept |
| Strings.EscapeChar | api/src/gits/repo/git.go:24-29 | a plain character is written as itself; any other is an escape that starts with a backslash |
| Strings.Escaped | api/src/gits/repo/git.go:24-29 | a string of plain characters is written as itself |
| Strings.Quoted | api/src/gits/repo/git.go:24-29 | `%q` puts the text between double quotes, unchanged when every character is plain, and unquoting gives the text back |
| Strings.NamedEscape | api/src/gits/repo/git.go:24-29 | the character a named escape stands for is written with that escape |
| Strings.UnescapeChar | api/src/gits/repo/git.go:24-29 | reading the escape of any character gives that character and continues after it |
| Strings.UnescapeEscaped | api/src/gits/repo/git.go:24-29 | reading the escapes back undoes escaping for every string |
| Subtrees.DefaultBranch | api/src/gits/repo/subtrees.go:33-35 | an empty branch means `master`; any other branch is kept |
| Subtrees.WithDefaultRef | api/src/gits/repo/subtrees.go:44-46 | an empty ref becomes `master`; nothing else about the spec changes |
| Subtrees.Validate | api/src/gits/repo/subtrees.go:37-47 | accepted exactly when every spec has a prefix and an http:, https:, git: or git@ remote; otherwise the first bad spec is reported with its index and `%+v` text (`SpecText`, whose unexported split branch is empty); accepted specs each get a ref |
| Subtrees.ValidateIdempotent | api/src/gits/repo/subtrees.go:37-47 | validated specs pass validation again unchanged, and every one has a ref |
| Subtrees.NoSuchFile | api/src/gits/repo/subtrees.go:225-229 | "file does not exist" counts as absent; a text without "no such file or directory" that is not that text does not |
| Subtrees.NoSuchFileOfStat | api/src/gits/repo/subtrees.go:225-229 | the error text of `stat` on a missing path counts as absent |
| Subtrees.CheckPaths | api/src/gits/repo/subtrees.go:69-80 | passes exactly when every target path is absent; otherwise the first one that is not is reported |
| Subtrees.ExistingPathRefused | api/src/gits/repo/subtrees.go:72-75 | a target path that exists, after free ones, is refused with "Path `...` already exist" |
| Subtrees.SplitPairs | api/src/gits/repo/subtrees.go:84-89 | exactly the remote and ref pairs of the subtrees with a split prefix |
| Subtrees.SplitRemotes | api/src/gits/repo/subtrees.go:82-93 | each remote and ref pair of a split subtree once, and nothing else |
| Subtrees.Visit | api/src/gits/repo/subtrees.go:93 | the map is ranged over in some order of exactly its remotes, each once; a valid order picked by the runtime is used as it is |
| Subtrees.SplitRemoteMap | api/src/gits/repo/subtrees.go:83-89 | every entry is stored under its own `remote\|ref` key and belongs to a split subtree; every split subtree's key is present |
| Subtrees.SplitKeys | api/src/gits/repo/subtrees.go:83-89 | the keys of the map, each once, including the key of every split subtree |
| Subtrees.SplitRemotesAsWritten | api/src/gits/repo/subtrees.go:83-93 | the written code fetches distinct pairs, each belonging to a split subtree |
| Subtrees.AsWrittenWithoutBars | api/src/gits/repo/subtrees.go:86-87 | when no remote contains `\|`, the written code fetches exactly the pairs of the split subtrees |
| Subtrees.KeyInjective | api/src/gits/repo/subtrees.go:86 | two pairs whose remotes have no `\|` and whose keys are equal are the same pair |
| Subtrees.Matching | api/src/gits/repo/subtrees.go:122-125 | the positions of the split subtrees that use one remote and ref, all of them, in ascending order |
| Subtrees.Order | api/src/gits/repo/subtrees.go:93-143 | the subtrees split by the nested loops are exactly the split subtrees whose pair is among the remotes |
| Subtrees.OrderDistinct | api/src/gits/repo/subtrees.go:93-143 | when the remotes are distinct, no subtree is split twice |
| Subtrees.SplitBranchNamesDistinct | api/src/gits/repo/subtrees.go:126-127 | split branches `_split-N` with different numbers have different names |
| Subtrees.RemoteSetup | api/src/gits/repo/subtrees.go:94-120 | adding, fetching and checking out a remote contains no split |
| Subtrees.SplitStep | api/src/gits/repo/subtrees.go:126-140 | splitting a subtree is a `subtree split` step |
| Subtrees.SplitPhaseSplits | api/src/gits/repo/subtrees.go:91-143 | the split steps of the fetch-and-split phase are the visited subtrees in order, split into branches numbered from 0 with one counter across all remotes |
| Subtrees.AddCommandLine | api/src/gits/repo/subtrees.go:160-169 | the `Args` of an add: `git subtree add --prefix=P` is followed by the remote and ref, or by the split branch alone, then `--squash` exactly when squashing |
| Subtrees.AddPhase | api/src/gits/repo/subtrees.go:159-180 | one add step per subtree, in the order given |
| Subtrees.BranchSplit | api/src/gits/repo/subtrees.go:126-141 | a visited subtree has a non-empty split branch, and the plan splits it into that branch |
| Subtrees.BranchesDistinct | api/src/gits/repo/subtrees.go:126-141 | two different visited subtrees get different split branches |
| Subtrees.VisitedInAnyOrder | api/src/gits/repo/subtrees.go:82-143 | in whatever order the map is ranged over, every split subtree is visited |
| Subtrees.PlanSplitsBeforeAdding | api/src/gits/repo/subtrees.go:82-180 | with remotes deduplicated by pair, every split subtree is split into its own branch before it is added from that branch, and no two share a branch |
| Subtrees.CollidingMap | api/src/gits/repo/subtrees.go:86-87 | two different pairs, `https://h/x\|y` with `z` and `https://h/x` with `y\|z`, share one key, and the map keeps only the later |
| Subtrees.CollidingAsWritten | api/src/gits/repo/subtrees.go:86-93 | with those specs the written code fetches only the second pair |
| Subtrees.KeyCollisionLosesSplit | api/src/gits/repo/subtrees.go:86-166 | as written, the first subtree is never split and is added from an empty branch name; deduplicating by pair gives it a branch |
| Subtrees.Execute | api/src/gits/repo/subtrees.go:98-191 | succeeds exactly when every step succeeds; otherwise it reports the first failing step's text followed by the git error |
| Subtrees.AddSubtrees | api/src/gits/repo/subtrees.go:31-214 | an invalid spec is reported first; then a failed temporary directory; it succeeds exactly when every spec is valid, the temporary directory exists, the clone succeeds, every target path is absent and every planned git command succeeds |
| Subtrees.PlanShape | api/src/gits/repo/subtrees.go:93-191 | the `Plan` starts with the fetch-and-split phase, checks out the branch right after it exactly when a remote was fetched, and ends with the push |
| Subtrees.PlanAdds | api/src/gits/repo/subtrees.go:159-180 | between the checkout and the push, the plan adds each subtree in the order given, from its remote or its split branch |
| Subtrees.PlanParts | api/src/gits/repo/subtrees.go:93-191 | the plan is the `SplitPhase`, the checkout when a remote was fetched, the add phase and the push, in that order |
| Subtrees.InvalidSpecRunsNothing | api/src/gits/repo/subtrees.go:37-47 | with an invalid spec the result is an error that does not depend on the environment, so no git command is run |
| Upload.OctalRun | cmd/gits/api/upload.go:113 | the longest prefix of octal digits: all octal, and followed by a non-octal character or the end |
| Upload.ParseOctal32 | cmd/gits/api/upload.go:113 | `strconv.ParseUint(s, 8, 32)` succeeds exactly for a non-empty octal string below 2^32, with its value; otherwise a range error exactly when the leading octal digits already pass 32 bits, and a syntax error otherwise |
| Upload.ParseOctalRoundTrip | cmd/gits/api/upload.go:113 | every 32-bit mode written in octal reads back as itself |
| Upload.QueryFileMode | cmd/gits/api/upload.go:108-118 | no mode gives 0; otherwise the mode succeeds exactly when the octal parse does, with its value, and fails with "Mode %q: <parse error>" |
| Upload.LegacyQueryFileMode | api/src/gits/api/upload.go:104-111 | the older version always parses, so an absent mode is a syntax error; otherwise it agrees with the octal parse |
| Upload.QueryVersionsAgree | api/src/gits/api/upload.go:104-111 | the two versions differ only for an absent mode, where both handlers go on with mode 0 and only the older logs an error |
| Upload.QueryModeRoundTrip | cmd/gits/api/upload.go:108-118 | a mode written in octal is the mode used |
| Upload.AddReply | cmd/gits/api/upload.go:93-102 | 204 with no body when the files are committed; otherwise 500 with the JSON error "Unable to add files to Git repository: …" |
| Upload.LegacyAddReply | api/src/gits/api/upload.go:89-98 | the older reply: 204 on success, 500 with the JSON error otherwise |
| Upload.RequestFile | cmd/gits/api/upload.go:17-29 | the committed file has the cleaned route path, the body as content, and the parsed mode, or 0 when the mode is absent or bad |
| Upload.UploadFile | cmd/gits/api/upload.go:17-29 | a single-file upload is 204 exactly when `add` commits that one file on the ref with the message, and 500 otherwise |
| Upload.LegacyRequestFile | api/src/gits/api/upload.go:15-26 | the older service commits the path as given in the route, with the same content and mode |
| Upload.LegacyUploadFile | api/src/gits/api/upload.go:15-26 | the older single-file upload is 204 exactly when `add` commits that file, without a branch |
| Upload.HeaderMode | cmd/gits/api/upload.go:73-84 | a part's mode is 0 without a header or a `Mode` entry (case-sensitive); a non-zero mode comes from the first non-empty `Mode` value read as octal |
| Upload.Collect | cmd/gits/api/upload.go:47-89 | the files are collected exactly when every field's first file opens; each field with files contributes its first file under the cleaned field name; a failure names the first field that does not open |
| Upload.UploadFiles | cmd/gits/api/upload.go:31-91 | a multipart upload is 204 exactly when the form parses, every first file opens and `add` commits them, and 500 otherwise |
| Upload.LegacyUploadFiles | api/src/gits/api/upload.go:28-87 | the older multipart upload: the same outcome with paths as given, no branch and the older error writer |
| Upload.OnlyFirstFileUsed | cmd/gits/api/upload.go:48-89 | a field sent with two files contributes only the first, with mode 0 |
| Util.Probe | cmd/gits/util/util.go:32-54 | maintenance is on exactly when a file is configured and can be stated; a message is shown exactly when that file is regular, non-empty and readable with content, and it is the content |
| Util.MessageOnlyWhenOn | cmd/gits/util/util.go:32-54 | with maintenance off there is no message |
| Util.Maintenance | cmd/gits/util/util.go:17-30 | the probe's answer is returned unchanged; a change is logged as "Maintenance mode on/off" exactly in verbose mode when it differs from the remembered state, which only verbose mode updates |
| Util.MaintenanceLogsOnce | cmd/gits/util/util.go:19-27 | asking again with the same answer logs nothing |
| Util.Present | cmd/gits/util/util.go:57-62 | the messages of the non-nil errors, no more of them than errors given, and none exactly when every error is nil |
| Util.PresentAppend | cmd/gits/util/util.go:58-62 | the messages of concatenated error lists are those of each list, in order |
| Util.Errors | cmd/gits/util/util.go:56-70 | "(no errors)" when every error is nil; otherwise the messages joined with the separator, `, ` when it is empty |
| Util.ErrorsSplit | cmd/gits/util/util.go:56-70 | with a one-character separator no message contains, splitting the joined text gives back the messages |

## Left out

- RepoName.Sanitize: lower-cases with the ASCII mapping only. Go's `strings.ToLower` is Unicode-aware: it turns U+212A KELVIN SIGN into `k`, where the model produces `-`. A string here is one character per byte, and Unicode case tables are not modelled.
- RepoName.RepositoryId: inherits the ASCII-only lower-casing of `Sanitize`.
- Permissions.SameOrg: compares organizations case-insensitively over ASCII only. Go compares Unicode lower-case forms, so `Ä` and `ä` match in Go but not in the model.
- Permissions.AccessWithLogin: inherits the ASCII-only organization comparison of `SameOrg`.
- Strings.Quoted: writes bytes 0x80 and above as they are. Go's `strconv.Quote` decodes UTF-8 and escapes invalid bytes and non-printable runes, which a byte-per-character string cannot express. Error texts of `GitCommand` and `Upload` that use `%q` inherit this.
- ExtApi.TemplateById: a failure of `http.NewRequest` is ignored by the code, which then uses a nil request and panics. The model starts from the transport outcome and does not model that panic.
- ExtApi.UsersBySshKey: the same ignored `http.NewRequest` failure is not modelled.
- Subtrees.AddSubtrees: plans with the remotes deduplicated by (remote, ref) pair, which is the corrected form of the code's `Remote|Ref` string key (see Findings). The map's visiting order is an oracle, and so is `filepath.Join` with its path cleaning. `maskAuth` (`url.Parse`) is an oracle. The log lines written after a successful push are not modelled.
- `filepath.Clean` in the upload and blob handlers is an oracle.
- HMAC-SHA1, AES-256-CBC and PBKDF2 are oracles: they are cryptographic primitives whose internals are outside the decision logic.
- JSON encoding and decoding, gzip decoding, base64, SSH key fingerprints and Basic-Auth header parsing are oracles or inputs. The credentials arrive already split into a triple.
- The login and organization lookups of the external directory, and the HTTP transport of every external call, are oracle fields of a `Directory` or a reply parameter.
- The git subprocesses (clone, fetch, split, add, push, `show-ref`, `show`, http-backend and the SSH git commands), S3 and archive handling, and the file system are oracles. The streamed bodies after the Smart HTTP prefix are not modelled.
- `util.NewReadCloser` (cmd/gits/util/util.go:72-90) is I/O plumbing around the gunzip gate and is not modelled.
- Goroutines, the SSH handshake, TCP accept and the standard-input copy workaround are not modelled: the model is sequential.
- Logging (`withLogger`, `gitDebug`, the verbose and trace messages) is not modelled, except the decision of `Util.Maintenance` to log a change of mode.
- The bootstrap (`main`, the listeners and the server time-outs) is not modelled.
- api/src/gits/repo/git.go calls a three-argument `access` that api/src/gits/repo/permissions.go does not define (it has the two-argument verb-less one). `GitCommand.GitServer` therefore takes the access decision as a parameter, and the SSH server supplies the `cmd/gits` engine `Permissions.Access`.
- cmd/gits/repo/git.go has no `GitServer`, so the SSH server uses the model of the api/src/gits/repo/git.go one.
- cmd/gits/config/vars.go is not part of this model: the maintenance file setting is a parameter of `Util.Probe`.
- The older service's routes (api/src/gits/api/http.go) have no blob, status or subtrees routes. Their handlers are modelled from their own files and are not routed.
- The older external clients api/src/gits/extapi/templates.go and keys.go, and api/src/gits/api/keys.go, duplicate the modelled `cmd/gits` conversions and are not modelled. So are api/src/gits/api/git.go, whose `gitRpcPacket` is identical to the modelled one, and api/src/gits/util/util.go and api/src/gits/api/error.go, which repeat `Util`.
- The delete and log handlers, and the `git` and S3 wrappers of both trees, are not modelled: their work is in the subprocess.

## Findings

| source | as written | input that shows it | evidently intended | confidence | as-written member | corrected member |
|---|---|---|---|---|---|---|
| api/src/gits/api/token.go:86-93 | the second search for `\|` starts at the separator itself, so it is found at index 0 and the subject stays empty | decrypted material `u1\|git:t1\|` followed by padding, with a valid MAC, decodes to user `u1` and subject `""` | the subject is the text between the first and the second `\|`, here `git:t1` | not executed | DeploymentKey.Decode, DeploymentKey.SubjectNeverExtracted | DeploymentKey.DecodeIntended, DeploymentKey.DecodeIntendedRecovers |
| api/src/gits/flags.go:103-109 | `port, exist := os.LookupEnv(...)` declares a new `port` inside the block, so the looked-up port is dropped | `HUB_SERVICE_HOST=hub` and `HUB_SERVICE_PORT=8443` give `http://hub`, which is port 80 | the looked-up port is kept, `http://hub:8443`, as api/src/gits/flags/parse.go does | not executed | Flags.LegacyLookupEndpoint, Flags.LegacyEndpointLosesPort | Flags.LegacyLookupEndpointIntended |
| api/src/gits/flags.go:16-67 | `-hub_api` is bound to the configuration variable, but `lookupEndpoint` is passed the never-assigned local `hubApiEndpoint` and its result overwrites the flag | `-hub_api` given, external calls on, and an empty host-variable name: start-up fails with the host-variable fatal error although the endpoint was given | an explicit `-hub_api` is kept and start-up succeeds, as in api/src/gits/flags/parse.go | not executed | Flags.LegacyParse, Flags.LegacyParseIgnoresHubApi | Flags.LegacyParseIntended, Flags.LegacyParseIntendedAcceptsHubApi |
| api/src/gits/repo/subtrees.go:86 | split remotes are deduplicated under the string key `Remote\|Ref`, and different pairs can share a key | subtrees `lib` from `https://h/x\|y` at ref `z`, and `app` from `https://h/x` at ref `y\|z`, both split: only the second pair is fetched, `lib` is never split, and it is added from the empty branch name | each distinct (remote, ref) pair is fetched, and every split subtree is split into its own branch | not executed | Subtrees.SplitRemotesAsWritten, Subtrees.KeyCollisionLosesSplit | Subtrees.SplitRemotes, Subtrees.PlanSplitsBeforeAdding |
| cmd/gits/ssh/server.go:169 | the exit-status payload is `[]byte{status, 0, 0, 0}` | exit status 1 is sent as `01 00 00 00`, which a client reads as 16777216 | the `uint32` of section 6.10 of RFC 4254 is big-endian (section 5 of RFC 4251): `00 00 00 01` | not executed | SshServer.ExitStatusAsWritten, SshServer.ExitStatusMisread | SshServer.ExitStatusPayload, SshServer.ExitStatusRoundTrip |
