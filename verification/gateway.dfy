/** The HTTP gateway's decisions: the credential checks, the gate middlewares,
    their composition, and the routes of cmd/gits/api/http.go and
    cmd/gits/api/git.go, with the older route set and secret check of
    api/src/gits/api/http.go.

    A handler's effect is the trace of calls it makes on the response writer
    (see `Responses`). Every gate either answers the request itself and stops,
    or passes it, possibly changed, to the next one; a route is the list of its
    gates in the order `mw` nests them, the first listed running outermost.
    Path matching by the router is not modelled: a request arrives with its
    path variables already extracted.
 */
module Gateway {
  import opened Wrappers
  import opened Responses
  import RepoName
  import Permissions
  import DeploymentKey
  import PktLine
  import GitCommand

  /** Basic-Auth credentials of the `Authorization` header (RFC 7617), as
      `Request.BasicAuth` returns them when present and well formed. */
  datatype Credentials = Credentials(username: string, password: string)

  /** The user information of the request URL; the password may be unset. */
  datatype UrlUser = UrlUser(username: string, password: Option<string>)

  /** A request after routing: the path variables, the headers that matter,
      the URL's user information, and the body. */
  datatype Request = Request(
    org: string,
    repository: string,
    service: string,
    apiSecretHeader: string,
    basicAuth: Option<Credentials>,
    urlUser: Option<UrlUser>,
    contentEncoding: string,
    body: seq<byte>)

  /** What the gates consult: the configured secret, the directory services,
      the deployment-key decoder, the repository store, the maintenance probe
      and the gzip reader. */
  datatype Env = Env(
    gitApiSecret: string,
    dir: Permissions.Directory,
    decodeKey: string -> DeploymentKey.DecodedKey,
    repoExists: string -> bool,
    maintenance: (bool, string),
    gunzip: seq<byte> -> Result<seq<byte>>)

  function RepoId(req: Request): string {
    RepoName.RepositoryId(req.org, req.repository)
  }

  /** `checkApiSecret`: no secret configured, or the secret in `X-API-Secret`,
      or as either Basic-Auth field. */
  function CheckApiSecret(secret: string, req: Request): (r: bool)
    ensures secret == "" ==> r
    ensures secret != "" ==>
      (r <==> req.apiSecretHeader == secret ||
              (req.basicAuth.Some? && secret in {req.basicAuth.value.username, req.basicAuth.value.password}))
  {
    if secret == "" then true
    else if req.apiSecretHeader == secret then true
    else match req.basicAuth
      case Some(c) => c.username == secret || c.password == secret
      case None => false
  }

  /** `checkGitService`: the two Smart HTTP services. */
  function CheckGitService(service: string): (r: bool)
    ensures r <==> service in ["git-upload-pack", "git-receive-pack"]
  {
    service == "git-upload-pack" || service == "git-receive-pack"
  }

  /** Every service the HTTP gateway allows is a verb the SSH server allows, and
      the archive verb is allowed over SSH only. */
  lemma HttpServicesWithinSshVerbs(service: string)
    ensures CheckGitService(service) ==> GitCommand.AllowedVerb(service)
    ensures GitCommand.AllowedVerb(service) && !CheckGitService(service) <==> service == "git-upload-archive"
  {
  }

  /** The deployment key, if the credentials carry one: the username when it is
      long enough, else the password when it is. */
  function ChooseDeploymentKey(c: Credentials): (r: Option<string>)
    ensures r.Some? <==> |c.username| >= DeploymentKey.MinHexLen || |c.password| >= DeploymentKey.MinHexLen
    ensures |c.username| >= DeploymentKey.MinHexLen ==> r == Some(c.username)
    ensures |c.username| < DeploymentKey.MinHexLen && |c.password| >= DeploymentKey.MinHexLen ==> r == Some(c.password)
  {
    if |c.username| >= DeploymentKey.MinHexLen then Some(c.username)
    else if |c.password| >= DeploymentKey.MinHexLen then Some(c.password)
    else None
  }

  const SubjectPrefix := "git:"

  /** The subject restriction of a deployment key: an empty subject restricts
      nothing; otherwise the subject must be "git:" followed by the template id
      of the repository. */
  function SubjectAllows(subject: string, repoId: string): (r: bool)
    ensures r <==> (subject == "" ||
      (Permissions.TemplateId(repoId).Ok? && subject == SubjectPrefix + Permissions.TemplateId(repoId).value))
  {
    if subject == "" then true
    else if |subject| > |SubjectPrefix| && subject[..|SubjectPrefix|] == SubjectPrefix then
      var id := subject[|SubjectPrefix|..];
      assert subject == SubjectPrefix + id;
      Permissions.TemplateId(repoId) == Ok(id)
    else
      assert Permissions.TemplateId(repoId).Ok? ==> |SubjectPrefix + Permissions.TemplateId(repoId).value| > |SubjectPrefix|;
      assert Permissions.TemplateId(repoId).Ok? ==> (SubjectPrefix + Permissions.TemplateId(repoId).value)[..4] == SubjectPrefix;
      false
  }

  /** The deployment-key path of `checkUserRepoAccess`. */
  function KeyAccess(env: Env, req: Request, key: string): (r: bool)
    ensures r <==>
      var d := env.decodeKey(key);
      d.err.None? && Permissions.Access(env.dir, RepoId(req), req.service, [d.userId]).granted &&
      SubjectAllows(d.subject, RepoId(req))
  {
    var d := env.decodeKey(key);
    var a := Permissions.Access(env.dir, RepoId(req), req.service, [d.userId]);
    if d.err.Some? || (a.err.Some? && !a.granted) then false
    else if a.granted && d.subject != "" then SubjectAllows(d.subject, RepoId(req))
    else a.granted
  }

  /** `checkUserRepoAccess`: no credentials deny; a deployment key is decoded and
      checked for its user; otherwise the credentials sign in a user. */
  function CheckUserRepoAccess(env: Env, req: Request): (r: bool)
    ensures req.basicAuth.None? ==> !r
    ensures req.basicAuth.Some? && ChooseDeploymentKey(req.basicAuth.value).Some? ==>
      (r <==> KeyAccess(env, req, ChooseDeploymentKey(req.basicAuth.value).value))
    ensures req.basicAuth.Some? && ChooseDeploymentKey(req.basicAuth.value).None? ==>
      (r <==> Permissions.AccessWithLogin(env.dir, req.org, RepoId(req), req.service,
                                          req.basicAuth.value.username, req.basicAuth.value.password).granted)
  {
    match req.basicAuth
    case None => false
    case Some(c) =>
      match ChooseDeploymentKey(c)
      case Some(key) => KeyAccess(env, req, key)
      case None =>
        var a := Permissions.AccessWithLogin(env.dir, req.org, RepoId(req), req.service, c.username, c.password);
        if a.err.Some? then false else a.granted
  }

  /** `checkApiSecretOrUserAuth`. */
  function CheckApiSecretOrUserAuth(env: Env, req: Request): (r: bool)
    ensures CheckApiSecret(env.gitApiSecret, req) ==> r
    ensures !CheckApiSecret(env.gitApiSecret, req) ==> (r <==> CheckUserRepoAccess(env, req))
  {
    CheckApiSecret(env.gitApiSecret, req) || CheckUserRepoAccess(env, req)
  }

  /** A request that carries the shared secret is let in whatever the directory,
      the decoder or the repository name say: user access is not consulted. */
  lemma SecretBypassesUserAccess(env: Env, req: Request, dir: Permissions.Directory,
                                 decodeKey: string -> DeploymentKey.DecodedKey, org: string, repository: string)
    requires CheckApiSecret(env.gitApiSecret, req)
    ensures CheckApiSecretOrUserAuth(env.(dir := dir, decodeKey := decodeKey), req.(org := org, repository := repository))
  {
  }

  /** With the decoder as written (which never yields a subject), a deployment
      key grants exactly what the engine grants its decoded user. */
  lemma KeyAccessWithWrittenDecoder(env: Env, req: Request, key: string, state: DeploymentKey.KeyState,
                                    crypto: DeploymentKey.Crypto)
    requires env.decodeKey(key) == DeploymentKey.Decode(state, crypto, key)
    ensures KeyAccess(env, req, key) <==>
      DeploymentKey.Decode(state, crypto, key).err.None? &&
      Permissions.Access(env.dir, RepoId(req), req.service, [DeploymentKey.Decode(state, crypto, key).userId]).granted
  {
    DeploymentKey.SubjectNeverExtracted(state, crypto, key);
  }

  /** A key whose decoding failed denies, whatever the engine says. */
  lemma DecodeErrorDenies(env: Env, req: Request, key: string)
    requires env.decodeKey(key).err.Some?
    ensures !KeyAccess(env, req, key)
  {
  }

  /** The gates of `getRouter`. `LegacyApiSecret` is the older service's check. */
  datatype Gate = Logger | ApiSecret | Auth | RepoExist | AllowedService | Maintenance | Gunzip | LegacyApiSecret

  /** A gate answers and stops, or passes the request on. */
  datatype Verdict = Stop(trace: seq<Event>) | Pass(req: Request)

  const AuthChallenge: seq<Event> := [SetHeader("WWW-Authenticate", "Basic realm=\".\""), WriteHeader(StatusUnauthorized)]

  /** The 503 answer: the status, then the message when there is one. */
  function MaintenanceReply(message: string): (r: seq<Event>)
    ensures StatusOf(r) == StatusServiceUnavailable && BodyOf(r) == message
  {
    var t := if message != "" then [WriteHeader(StatusServiceUnavailable), Write(message)]
             else [WriteHeader(StatusServiceUnavailable)];
    assert t[1..] == (if message != "" then [Write(message)] else []);
    assert message != "" ==> t[1..][1..] == [];
    assert BodyOf(t[1..]) == message + "";
    t
  }

  /** One gate on one request. */
  function Check(g: Gate, env: Env, req: Request): (r: Verdict)
    ensures r.Pass? && g != Gunzip ==> r.req == req
    ensures r.Stop? ==> StatusOf(r.trace) in {StatusUnauthorized, StatusNotFound, StatusBadRequest,
                                              StatusServiceUnavailable, StatusInternalServerError}
  {
    match g
    case Logger => Pass(req)
    case ApiSecret => if CheckApiSecret(env.gitApiSecret, req) then Pass(req) else Stop([WriteHeader(StatusUnauthorized)])
    case Auth => if CheckApiSecretOrUserAuth(env, req) then Pass(req) else Stop(AuthChallenge)
    case RepoExist => if env.repoExists(RepoId(req)) then Pass(req) else Stop([WriteHeader(StatusNotFound)])
    case AllowedService => if CheckGitService(req.service) then Pass(req) else Stop([WriteHeader(StatusBadRequest)])
    case Maintenance =>
      if env.maintenance.0 then Stop(MaintenanceReply(env.maintenance.1)) else Pass(req)
    case Gunzip =>
      if req.contentEncoding != "gzip" then Pass(req)
      else if env.gunzip(req.body).Err? then Stop([WriteHeader(StatusInternalServerError)])
      else Pass(req.(body := env.gunzip(req.body).value))
    case LegacyApiSecret =>
      if LegacyCheckApiSecret(env.gitApiSecret, req) then Pass(req) else Stop([WriteHeader(StatusUnauthorized)])
  }

  /** A list of gates, first outermost: the first answer, or the request that
      reaches the handler. */
  function Through(gates: seq<Gate>, env: Env, req: Request): Verdict
    decreases |gates|
  {
    if |gates| == 0 then Pass(req)
    else match Check(gates[0], env, req)
      case Stop(t) => Stop(t)
      case Pass(r) => Through(gates[1..], env, r)
  }

  /** Serving a request through a list of gates to a handler. */
  function Serve(gates: seq<Gate>, env: Env, req: Request, handler: Request -> seq<Event>): seq<Event> {
    match Through(gates, env, req)
    case Stop(t) => t
    case Pass(r) => handler(r)
  }

  /** Serving through `a + b` is serving through `a` to a handler that serves
      through `b`: `mw(m1, m2)(h) = m1(m2(h))`. */
  lemma ServeNested(a: seq<Gate>, b: seq<Gate>, env: Env, req: Request, handler: Request -> seq<Event>)
    ensures Serve(a + b, env, req, handler) == Serve(a, env, req, (r: Request) => Serve(b, env, r, handler))
  {
    ThroughConcat(a, b, env, req);
  }

  /** A refused request never reaches the handler: the answer does not depend
      on it. */
  lemma RefusedNotHandled(gates: seq<Gate>, env: Env, req: Request, h1: Request -> seq<Event>, h2: Request -> seq<Event>)
    requires Through(gates, env, req).Stop?
    ensures Serve(gates, env, req, h1) == Serve(gates, env, req, h2)
  {
  }

  /** Gates compose: running `a` then `b` is running `a + b`. This is the
      nesting `mw(m1, …, mn)(h) = m1(…mn(h))`. */
  lemma {:induction false} ThroughConcat(a: seq<Gate>, b: seq<Gate>, env: Env, req: Request)
    ensures Through(a + b, env, req) ==
      match Through(a, env, req)
      case Stop(t) => Stop(t)
      case Pass(r) => Through(b, env, r)
    decreases |a|
  {
    if |a| == 0 {
      assert a + b == b;
    } else {
      assert (a + b)[0] == a[0];
      assert (a + b)[1..] == a[1..] + b;
      match Check(a[0], env, req)
      case Stop(_) =>
      case Pass(r) => ThroughConcat(a[1..], b, env, r);
    }
  }

  /** A middleware as `mw` builds it: one gate, or a list composed in order. */
  datatype Middleware = Use(gate: Gate) | Mw(parts: seq<Middleware>)

  /** The gates of a middleware, outermost first. */
  function Flatten(m: Middleware): seq<Gate>
    decreases m, 1, 0
  {
    match m
    case Use(g) => [g]
    case Mw(parts) => FlattenParts(parts, m)
  }

  function FlattenParts(parts: seq<Middleware>, ghost whole: Middleware): seq<Gate>
    requires forall i :: 0 <= i < |parts| ==> parts[i] < whole
    decreases whole, 0, |parts|
  {
    if |parts| == 0 then [] else Flatten(parts[0]) + FlattenParts(parts[1..], whole)
  }

  /** The routes of `getRouter`. */
  datatype Endpoint =
    | CreateRepo | DeleteRepo | UploadFile | UploadFiles | AddSubtrees
    | Blob | Log | Status | InfoRefs | Pack | Ping

  const LifecycleGates := Mw([Use(Logger), Use(ApiSecret), Use(RepoExist)])
  const GitGates := Mw([Use(Logger), Use(Auth), Use(AllowedService), Use(RepoExist)])

  function Route(e: Endpoint): Middleware {
    match e
    case CreateRepo => Mw([Use(Logger), Use(ApiSecret), Use(Maintenance)])
    case DeleteRepo => Mw([LifecycleGates, Use(Maintenance)])
    case UploadFile => Mw([LifecycleGates, Use(Maintenance)])
    case UploadFiles => Mw([LifecycleGates, Use(Maintenance)])
    case AddSubtrees => Mw([LifecycleGates, Use(Maintenance)])
    case Blob => LifecycleGates
    case Log => LifecycleGates
    case Status => LifecycleGates
    case InfoRefs => GitGates
    case Pack => Mw([GitGates, Use(Maintenance), Use(Gunzip)])
    case Ping => Mw([Use(Logger)])
  }

  /** Flattening a composition appends the parts' gates in order. */
  lemma {:induction false} FlattenPartsAppend(parts: seq<Middleware>, whole: Middleware)
    requires forall i :: 0 <= i < |parts| ==> parts[i] < whole
    ensures |parts| > 0 ==> FlattenParts(parts, whole) == Flatten(parts[0]) + FlattenParts(parts[1..], whole)
    ensures |parts| == 0 ==> FlattenParts(parts, whole) == []
  {
  }

  /** A composition of single gates flattens to those gates. */
  lemma {:induction false} FlattenUses(gates: seq<Gate>, whole: Middleware)
    requires forall i :: 0 <= i < |gates| ==> Use(gates[i]) < whole
    ensures FlattenParts(seq(|gates|, i requires 0 <= i < |gates| => Use(gates[i])), whole) == gates
    decreases |gates|
  {
    var parts := seq(|gates|, i requires 0 <= i < |gates| => Use(gates[i]));
    if |gates| > 0 {
      assert parts[1..] == seq(|gates| - 1, i requires 0 <= i < |gates| - 1 => Use(gates[1..][i]));
      FlattenUses(gates[1..], whole);
    }
  }

  /** The gates of the git routes and of the repository routes. */
  lemma SharedGates()
    ensures Flatten(GitGates) == [Logger, Auth, AllowedService, RepoExist]
    ensures Flatten(LifecycleGates) == [Logger, ApiSecret, RepoExist]
  {
    var git := [Logger, Auth, AllowedService, RepoExist];
    var life := [Logger, ApiSecret, RepoExist];
    SingleGates(git);
    SingleGates(life);
    assert GitGates == Mw(seq(4, i requires 0 <= i < 4 => Use(git[i])));
    assert LifecycleGates == Mw(seq(3, i requires 0 <= i < 3 => Use(life[i])));
  }

  /** The pack route: the git gates, then maintenance, then the gzip reader. */
  lemma PackGates()
    ensures Flatten(Route(Pack)) == [Logger, Auth, AllowedService, RepoExist, Maintenance, Gunzip]
  {
    SharedGates();
    TwoParts(GitGates, Use(Maintenance), Use(Gunzip));
  }

  /** The routes that change a repository: the repository gates, then maintenance. */
  lemma ChangeGates(e: Endpoint)
    requires e in {DeleteRepo, UploadFile, UploadFiles, AddSubtrees}
    ensures Flatten(Route(e)) == [Logger, ApiSecret, RepoExist, Maintenance]
  {
    SharedGates();
    OnePart(LifecycleGates, Use(Maintenance));
  }

  /** Creation is not gated by existence; ping only logs. */
  lemma CreateAndPingGates()
    ensures Flatten(Route(CreateRepo)) == [Logger, ApiSecret, Maintenance]
    ensures Flatten(Route(Ping)) == [Logger]
  {
    var create := [Logger, ApiSecret, Maintenance];
    SingleGates(create);
    SingleGates([Logger]);
    assert Route(CreateRepo) == Mw(seq(3, i requires 0 <= i < 3 => Use(create[i])));
    assert Route(Ping) == Mw(seq(1, i requires 0 <= i < 1 => Use([Logger][i])));
  }

  /** Who may call each route of `getRouter`: every route logs first; only
      the git routes authenticate users and check the service; all others but
      ping check the API secret; no route uses the older secret check. */
  lemma RouteCallers(e: Endpoint)
    ensures |Flatten(Route(e))| > 0 && Flatten(Route(e))[0] == Logger
    ensures Auth in Flatten(Route(e)) <==> e == InfoRefs || e == Pack
    ensures AllowedService in Flatten(Route(e)) <==> e == InfoRefs || e == Pack
    ensures ApiSecret in Flatten(Route(e)) <==> e != InfoRefs && e != Pack && e != Ping
    ensures LegacyApiSecret !in Flatten(Route(e))
  {
    RouteFlattens(e);
    ListCallers(e);
  }

  /** What each route of `getRouter` requires of the repository: all but
      creation and ping check that it exists; the routes that write check
      maintenance; only pack reads gzip. */
  lemma RouteChecks(e: Endpoint)
    ensures RepoExist in Flatten(Route(e)) <==> e != CreateRepo && e != Ping
    ensures Maintenance in Flatten(Route(e)) <==>
      e in {CreateRepo, DeleteRepo, UploadFile, UploadFiles, AddSubtrees, Pack}
    ensures Gunzip in Flatten(Route(e)) <==> e == Pack
  {
    RouteFlattens(e);
    ListChecks(e);
  }

  lemma ListCallers(e: Endpoint)
    ensures |RouteGateList(e)| > 0 && RouteGateList(e)[0] == Logger
    ensures Auth in RouteGateList(e) <==> e == InfoRefs || e == Pack
    ensures AllowedService in RouteGateList(e) <==> e == InfoRefs || e == Pack
    ensures ApiSecret in RouteGateList(e) <==> e != InfoRefs && e != Pack && e != Ping
    ensures LegacyApiSecret !in RouteGateList(e)
  {
  }

  lemma ListChecks(e: Endpoint)
    ensures RepoExist in RouteGateList(e) <==> e != CreateRepo && e != Ping
    ensures Maintenance in RouteGateList(e) <==>
      e in {CreateRepo, DeleteRepo, UploadFile, UploadFiles, AddSubtrees, Pack}
    ensures Gunzip in RouteGateList(e) <==> e == Pack
  {
  }

  /** The gates of each route, written out flat. */
  function RouteGateList(e: Endpoint): seq<Gate> {
    match e
    case CreateRepo => [Logger, ApiSecret, Maintenance]
    case InfoRefs => [Logger, Auth, AllowedService, RepoExist]
    case Pack => [Logger, Auth, AllowedService, RepoExist, Maintenance, Gunzip]
    case Ping => [Logger]
    case Blob => [Logger, ApiSecret, RepoExist]
    case Log => [Logger, ApiSecret, RepoExist]
    case Status => [Logger, ApiSecret, RepoExist]
    case _ => [Logger, ApiSecret, RepoExist, Maintenance]
  }

  /** The nested middlewares of a route flatten to its flat list. */
  lemma RouteFlattens(e: Endpoint)
    ensures Flatten(Route(e)) == RouteGateList(e)
  {
    match e
    case CreateRepo => CreateAndPingGates();
    case Ping => CreateAndPingGates();
    case Pack => PackGates();
    case InfoRefs => SharedGates();
    case Blob => SharedGates();
    case Log => SharedGates();
    case Status => SharedGates();
    case _ => ChangeGates(e);
  }

  /** `Mw` of single gates flattens to the gates. */
  lemma SingleGates(gates: seq<Gate>)
    ensures Flatten(Mw(seq(|gates|, i requires 0 <= i < |gates| => Use(gates[i])))) == gates
  {
    var m := Mw(seq(|gates|, i requires 0 <= i < |gates| => Use(gates[i])));
    assert forall i :: 0 <= i < |gates| ==> Use(gates[i]) == m.parts[i];
    FlattenUses(gates, m);
  }

  lemma OnePart(a: Middleware, b: Middleware)
    ensures Flatten(Mw([a, b])) == Flatten(a) + Flatten(b)
  {
    var m := Mw([a, b]);
    assert [a, b][1..] == [b];
    assert [b][1..] == [];
    assert FlattenParts([b], m) == Flatten(b) + FlattenParts([], m);
  }

  lemma TwoParts(a: Middleware, b: Middleware, c: Middleware)
    ensures Flatten(Mw([a, b, c])) == Flatten(a) + Flatten(b) + Flatten(c)
  {
    var m := Mw([a, b, c]);
    assert [a, b, c][1..] == [b, c];
    assert [b, c][1..] == [c];
    assert [c][1..] == [];
    assert FlattenParts([c], m) == Flatten(c) + FlattenParts([], m);
    assert FlattenParts([b, c], m) == Flatten(b) + FlattenParts([c], m);
  }

  const PackGateList := [Logger, Auth, AllowedService, RepoExist, Maintenance, Gunzip]

  /** Where a pack request stops, or what reaches the handler. */
  lemma PackThrough(env: Env, req: Request)
    ensures Through(PackGateList, env, req) ==
      if !CheckApiSecretOrUserAuth(env, req) then Stop(AuthChallenge)
      else if !CheckGitService(req.service) then Stop([WriteHeader(StatusBadRequest)])
      else if !env.repoExists(RepoId(req)) then Stop([WriteHeader(StatusNotFound)])
      else if env.maintenance.0 then Stop(MaintenanceReply(env.maintenance.1))
      else Check(Gunzip, env, req)
  {
    assert PackGateList == [Logger] + ([Auth] + GitTail);
    ThroughCons(Logger, [Auth] + GitTail, env, req);
    ThroughCons(Auth, GitTail, env, req);
    PackTail(env, req);
  }

  const GitTail := [AllowedService] + ([RepoExist] + ([Maintenance] + ([Gunzip] + [])))

  /** The pack gates after authentication. */
  lemma PackTail(env: Env, req: Request)
    ensures Through(GitTail, env, req) ==
      if !CheckGitService(req.service) then Stop([WriteHeader(StatusBadRequest)])
      else if !env.repoExists(RepoId(req)) then Stop([WriteHeader(StatusNotFound)])
      else if env.maintenance.0 then Stop(MaintenanceReply(env.maintenance.1))
      else Check(Gunzip, env, req)
  {
    ThroughCons(AllowedService, [RepoExist] + ([Maintenance] + ([Gunzip] + [])), env, req);
    ThroughCons(RepoExist, [Maintenance] + ([Gunzip] + []), env, req);
    ThroughCons(Maintenance, [Gunzip] + [], env, req);
    ThroughCons(Gunzip, [], env, req);
  }

  /** The Smart HTTP pack route, gate by gate: authentication first, then the
      service, the repository, maintenance, and the request encoding. */
  lemma PackDecision(env: Env, req: Request, handler: Request -> seq<Event>)
    ensures Serve(Flatten(Route(Pack)), env, req, handler) ==
      if !CheckApiSecretOrUserAuth(env, req) then AuthChallenge
      else if !CheckGitService(req.service) then [WriteHeader(StatusBadRequest)]
      else if !env.repoExists(RepoId(req)) then [WriteHeader(StatusNotFound)]
      else if env.maintenance.0 then MaintenanceReply(env.maintenance.1)
      else if req.contentEncoding != "gzip" then handler(req)
      else if env.gunzip(req.body).Err? then [WriteHeader(StatusInternalServerError)]
      else handler(req.(body := env.gunzip(req.body).value))
  {
    PackGates();
    PackThrough(env, req);
  }

  const GitGateList := [Logger, Auth, AllowedService, RepoExist]

  /** Where an info/refs request stops, or that it reaches the handler. */
  lemma InfoRefsThrough(env: Env, req: Request)
    ensures Through(GitGateList, env, req) ==
      if !CheckApiSecretOrUserAuth(env, req) then Stop(AuthChallenge)
      else if !CheckGitService(req.service) then Stop([WriteHeader(StatusBadRequest)])
      else if !env.repoExists(RepoId(req)) then Stop([WriteHeader(StatusNotFound)])
      else Pass(req)
  {
    assert GitGateList == [Logger] + ([Auth] + ([AllowedService] + ([RepoExist] + [])));
    ThroughCons(Logger, [Auth] + ([AllowedService] + ([RepoExist] + [])), env, req);
    ThroughCons(Auth, [AllowedService] + ([RepoExist] + []), env, req);
    ThroughCons(AllowedService, [RepoExist] + [], env, req);
    ThroughCons(RepoExist, [], env, req);
  }

  /** The info/refs route has no maintenance gate: the advertisement is served
      in maintenance too. */
  lemma InfoRefsDecision(env: Env, req: Request, handler: Request -> seq<Event>)
    ensures Serve(Flatten(Route(InfoRefs)), env, req, handler) ==
      if !CheckApiSecretOrUserAuth(env, req) then AuthChallenge
      else if !CheckGitService(req.service) then [WriteHeader(StatusBadRequest)]
      else if !env.repoExists(RepoId(req)) then [WriteHeader(StatusNotFound)]
      else handler(req)
  {
    SharedGates();
    InfoRefsThrough(env, req);
  }

  /** Creating a repository is gated by the secret and maintenance, not by existence. */
  lemma CreateDecision(env: Env, req: Request, handler: Request -> seq<Event>)
    ensures Serve(Flatten(Route(CreateRepo)), env, req, handler) ==
      if !CheckApiSecret(env.gitApiSecret, req) then [WriteHeader(StatusUnauthorized)]
      else if env.maintenance.0 then MaintenanceReply(env.maintenance.1)
      else handler(req)
  {
    CreateAndPingGates();
    assert [Logger, ApiSecret, Maintenance] == [Logger] + ([ApiSecret] + ([Maintenance] + []));
    ThroughCons(Logger, [ApiSecret] + ([Maintenance] + []), env, req);
    ThroughCons(ApiSecret, [Maintenance] + [], env, req);
    ThroughCons(Maintenance, [], env, req);
  }

  const ChangeGateList := [Logger, ApiSecret, RepoExist, Maintenance]

  /** Where a changing request stops, or that it reaches the handler. */
  lemma ChangeThrough(env: Env, req: Request)
    ensures Through(ChangeGateList, env, req) ==
      if !CheckApiSecret(env.gitApiSecret, req) then Stop([WriteHeader(StatusUnauthorized)])
      else if !env.repoExists(RepoId(req)) then Stop([WriteHeader(StatusNotFound)])
      else if env.maintenance.0 then Stop(MaintenanceReply(env.maintenance.1))
      else Pass(req)
  {
    assert ChangeGateList == [Logger] + ([ApiSecret] + ([RepoExist] + ([Maintenance] + [])));
    ThroughCons(Logger, [ApiSecret] + ([RepoExist] + ([Maintenance] + [])), env, req);
    ThroughCons(ApiSecret, [RepoExist] + ([Maintenance] + []), env, req);
    ThroughCons(RepoExist, [Maintenance] + [], env, req);
    ThroughCons(Maintenance, [], env, req);
  }

  /** Changing routes are gated by the secret, existence, then maintenance. */
  lemma ChangeDecision(e: Endpoint, env: Env, req: Request, handler: Request -> seq<Event>)
    requires e in {DeleteRepo, UploadFile, UploadFiles, AddSubtrees}
    ensures Serve(Flatten(Route(e)), env, req, handler) ==
      if !CheckApiSecret(env.gitApiSecret, req) then [WriteHeader(StatusUnauthorized)]
      else if !env.repoExists(RepoId(req)) then [WriteHeader(StatusNotFound)]
      else if env.maintenance.0 then MaintenanceReply(env.maintenance.1)
      else handler(req)
  {
    ChangeGates(e);
    ChangeThrough(env, req);
  }

  /** The first gate decides whether the rest are consulted. */
  lemma ThroughCons(g: Gate, rest: seq<Gate>, env: Env, req: Request)
    ensures var v := Check(g, env, req);
      Through([g] + rest, env, req) == if v.Stop? then v else Through(rest, env, v.req)
  {
    assert ([g] + rest)[0] == g;
    assert ([g] + rest)[1..] == rest;
  }

  const LifecycleGateList := [Logger, ApiSecret, RepoExist]

  /** Where a repository request stops, or that it reaches the handler. */
  lemma LifecycleThrough(env: Env, req: Request)
    ensures Through(LifecycleGateList, env, req) ==
      if !CheckApiSecret(env.gitApiSecret, req) then Stop([WriteHeader(StatusUnauthorized)])
      else if !env.repoExists(RepoId(req)) then Stop([WriteHeader(StatusNotFound)])
      else Pass(req)
  {
    assert LifecycleGateList == [Logger] + ([ApiSecret] + ([RepoExist] + []));
    ThroughCons(Logger, [ApiSecret] + ([RepoExist] + []), env, req);
    ThroughCons(ApiSecret, [RepoExist] + [], env, req);
    ThroughCons(RepoExist, [], env, req);
  }

  /** Reading routes are gated by the secret and existence, not by maintenance. */
  lemma ReadDecision(e: Endpoint, env: Env, req: Request, handler: Request -> seq<Event>)
    requires e in {Blob, Log, Status}
    ensures Serve(Flatten(Route(e)), env, req, handler) ==
      if !CheckApiSecret(env.gitApiSecret, req) then [WriteHeader(StatusUnauthorized)]
      else if !env.repoExists(RepoId(req)) then [WriteHeader(StatusNotFound)]
      else handler(req)
  {
    SharedGates();
    LifecycleThrough(env, req);
  }

  /** `ping`. */
  const Pong: seq<Event> := Respond([SetHeader("Content-Type", "text/plain")], StatusOK, "pong")

  /** The ping route always answers 200 "pong". */
  lemma PingAnswers(env: Env, req: Request)
    ensures var t := Serve(Flatten(Route(Ping)), env, req, (r: Request) => Pong);
      StatusOf(t) == StatusOK && BodyOf(t) == "pong"
  {
    CreateAndPingGates();
    ThroughCons(Logger, [], env, req);
    assert [Logger] + [] == [Logger];
    RespondSeen([SetHeader("Content-Type", "text/plain")], StatusOK, "pong");
  }

  /** An authorised upload-pack advertisement starts with the framed service
      line and a flush, in maintenance or not. */
  lemma UploadPackInfoRefs(env: Env, req: Request, advertisement: string)
    requires CheckApiSecretOrUserAuth(env, req) && env.repoExists(RepoId(req))
    requires req.service == "git-upload-pack"
    ensures BodyOf(Serve(Flatten(Route(InfoRefs)), env, req,
                         (r: Request) => PktLine.RefsInfo(r.service, advertisement))) ==
            "001e# service=git-upload-pack\n0000" + advertisement
  {
    InfoRefsDecision(env, req, (r: Request) => PktLine.RefsInfo(r.service, advertisement));
    PktLine.UploadPackAnnouncement(advertisement);
  }

  /** `checkApiSecret` of the older service: the header, or the URL's user
      information (the username, or a password that is set). */
  function LegacyCheckApiSecret(secret: string, req: Request): (r: bool)
    ensures secret == "" ==> r
    ensures secret != "" ==>
      (r <==> req.apiSecretHeader == secret ||
              (req.urlUser.Some? && (req.urlUser.value.username == secret || req.urlUser.value.password == Some(secret))))
  {
    if secret == "" then true
    else if req.apiSecretHeader == secret then true
    else match req.urlUser
      case None => false
      case Some(u) =>
        if u.username == secret then true
        else match u.password
          case Some(p) => p == secret
          case None => false
  }

  /** When the URL carries the same credentials as the `Authorization` header,
      the two checks agree. */
  lemma SecretChecksAgree(secret: string, req: Request)
    requires req.basicAuth.Some? ==> req.urlUser == Some(UrlUser(req.basicAuth.value.username, Some(req.basicAuth.value.password)))
    requires req.basicAuth.None? ==> req.urlUser.None?
    ensures CheckApiSecret(secret, req) == LegacyCheckApiSecret(secret, req)
  {
  }

  /** The routes of the older service: the git routes exist only for the
      upload service, and only the shared secret guards anything. Unknown
      routes get the not-found answer. */
  function LegacyRoute(e: Endpoint, service: string): (r: Option<seq<Gate>>)
    ensures r.Some? ==> |r.value| >= 2 && r.value[..2] == [Logger, LegacyApiSecret]
    ensures e in {InfoRefs, Pack} ==> (r.Some? <==> service == "git-upload-pack")
  {
    match e
    case CreateRepo => Some([Logger, LegacyApiSecret])
    case DeleteRepo => Some([Logger, LegacyApiSecret])
    case UploadFile => Some([Logger, LegacyApiSecret])
    case UploadFiles => Some([Logger, LegacyApiSecret])
    case Log => Some([Logger, LegacyApiSecret])
    case InfoRefs => if service == "git-upload-pack" then Some([Logger, LegacyApiSecret]) else None
    case Pack => if service == "git-upload-pack" then Some([Logger, LegacyApiSecret, Gunzip]) else None
    case _ => None
  }

  /** Serving on the older service: a missing route answers 404. */
  function LegacyServe(e: Endpoint, env: Env, req: Request, handler: Request -> seq<Event>): (r: seq<Event>)
    ensures LegacyRoute(e, req.service).None? ==> r == [WriteHeader(StatusNotFound)]
    ensures LegacyRoute(e, req.service).Some? && !LegacyCheckApiSecret(env.gitApiSecret, req) ==>
      r == [WriteHeader(StatusUnauthorized)]
  {
    match LegacyRoute(e, req.service)
    case None => [WriteHeader(StatusNotFound)]
    case Some(gates) =>
      assert gates == [Logger] + ([LegacyApiSecret] + gates[2..]);
      ThroughCons(Logger, [LegacyApiSecret] + gates[2..], env, req);
      ThroughCons(LegacyApiSecret, gates[2..], env, req);
      Serve(gates, env, req, handler)
  }

  /** The older service never serves the receive service: pushes over HTTP get 404. */
  lemma LegacyNoPush(e: Endpoint, env: Env, req: Request, handler: Request -> seq<Event>)
    requires e in {InfoRefs, Pack} && req.service == "git-receive-pack"
    ensures LegacyServe(e, env, req, handler) == [WriteHeader(StatusNotFound)]
  {
  }
}
