/** The external-directory clients of cmd/gits/extapi (templates, SSH keys) and
    api/src/gits/extapi (teams), reduced to what they decide: how a service
    reply becomes the records the access engine consumes.

    The HTTP exchange itself is not modelled. Each client receives the
    transport outcome (`Err` when `Do` failed) and a JSON decoder for the body,
    both as oracles.
 */
module ExtApi {
  import opened Wrappers
  import Strings
  import Numerals

  /** A team reference on a template, as the access engine sees it. */
  datatype TeamAccess = TeamAccess(teamId: string, teamName: string, canWrite: bool)

  /** A template: its owner and the ordered list of teams with access. */
  datatype Template = Template(ownerUserId: string, teams: seq<TeamAccess>)

  /** An organization as the Hub describes it. */
  datatype Org = Org(id: string, showSource: bool)

  /** A user signed in through the Auth Service: id, organization and team names. */
  datatype AuthUser = AuthUser(uid: string, organization: string, groups: seq<string>)

  /** The team entry of the Hub's JSON reply. */
  datatype HubTeam = HubTeam(id: string, name: string, role: string)

  datatype HubTemplate = HubTemplate(ownerId: string, teamsPermissions: seq<HubTeam>)

  /** One entry of the Hub's `user/keys` reply. */
  datatype HubUserKey = HubUserKey(userId: string, publicKey: string)

  /** One member of the Auth Service's team reply. */
  datatype AuthTeamMember = AuthTeamMember(id: string, status: string)

  /** A reply that arrived: status code, the body bytes read, and the error of
      reading the body (None when the read completed). */
  datatype HttpReply = HttpReply(status: int, body: seq<byte>, readErr: Option<string>)

  /** The user ids that the test mode substitutes for every directory answer. */
  const AgileUsers: seq<string> := ["anton", "arkadi", "igor", "igorlysak", "nikolay", "oleg", "rick"]

  /** The template returned for every id in test mode. */
  const FixtureTemplate: Template :=
    Template("arkadi", [TeamAccess("1", "", true), TeamAccess("2", "", false)])

  /** The reply arrived with status 200 and at least two body bytes, read
      without error: the case in which the clients decode the body. */
  predicate Readable(reply: Result<HttpReply>) {
    reply.Ok? && reply.value.status == 200 && |reply.value.body| >= 2 && reply.value.readErr.None?
  }

  /** Go's `%v` of an error value. */
  function ErrorText(e: Option<string>): string {
    match e
    case None => "<nil>"
    case Some(m) => m
  }

  /** A team role grants write access exactly when it is "admin" or "write". */
  predicate RoleCanWrite(role: string) {
    role == "admin" || role == "write"
  }

  /** The Hub reply's team list, converted entry by entry, in order. */
  function ConvertTeams(hub: seq<HubTeam>): (r: seq<TeamAccess>)
    ensures |r| == |hub|
    ensures forall i :: 0 <= i < |hub| ==>
      r[i].teamId == hub[i].id && r[i].teamName == hub[i].name &&
      (r[i].canWrite <==> RoleCanWrite(hub[i].role))
  {
    if |hub| == 0 then []
    else [TeamAccess(hub[0].id, hub[0].name, RoleCanWrite(hub[0].role))] + ConvertTeams(hub[1..])
  }

  /** `TemplateById`: the Hub's reply for template `templateId` turned into a `Template`. */
  function TemplateById(noExtApiCalls: bool, templateId: string, reply: Result<HttpReply>,
                        decode: seq<byte> -> Result<HubTemplate>): (r: Result<Template>)
    ensures noExtApiCalls ==> r == Ok(FixtureTemplate)
    ensures !noExtApiCalls && reply.Ok? && reply.value.status == 404 ==>
      r == Err("No `" + templateId + "` template found")
    ensures !noExtApiCalls && reply.Ok? && reply.value.status != 200 ==> r.Err?
    ensures !noExtApiCalls && reply.Ok? && (|reply.value.body| < 2 || reply.value.readErr.Some?) ==> r.Err?
    ensures !noExtApiCalls && reply.Err? ==> r.Err?
    ensures !noExtApiCalls && Readable(reply) ==> (r.Ok? <==> decode(reply.value.body).Ok?)
    ensures r.Ok? && !noExtApiCalls ==>
      Readable(reply) && decode(reply.value.body).Ok? &&
      var hub := decode(reply.value.body).value;
      r.value.ownerUserId == hub.ownerId && |r.value.teams| == |hub.teamsPermissions| &&
      forall i :: 0 <= i < |hub.teamsPermissions| ==>
        r.value.teams[i] == TeamAccess(hub.teamsPermissions[i].id, hub.teamsPermissions[i].name,
                                       RoleCanWrite(hub.teamsPermissions[i].role))
  {
    if noExtApiCalls then Ok(FixtureTemplate)
    else match reply
      case Err(e) => Err("Error querying Hub templates: " + e)
      case Ok(resp) =>
        if resp.status == 404 then Err("No `" + templateId + "` template found")
        else if resp.status != 200 then Err("Got " + Numerals.Itoa(resp.status) + " HTTP querying Hub templates")
        else if |resp.body| < 2 || resp.readErr.Some? then
          Err("Error reading Hub response (read " + Numerals.Itoa(|resp.body|) + " bytes): " + ErrorText(resp.readErr))
        else match decode(resp.body)
          case Err(e) => Err("Error unmarshalling Hub templates response: " + e)
          case Ok(hub) => Ok(Template(hub.ownerId, ConvertTeams(hub.teamsPermissions)))
  }

  /** The user's listed key matches: one of its space-separated tokens is longer
      than 100 characters and equals the presented key. */
  predicate KeyListed(uk: HubUserKey, keyBase64: string) {
    |keyBase64| > 100 && keyBase64 in Strings.Split(uk.publicKey, ' ')
  }

  /** One copy of `userId` per token equal to the presented key. */
  function TokenMatches(userId: string, tokens: seq<string>, keyBase64: string): (r: seq<string>)
    ensures forall u :: u in r ==> u == userId
    ensures |r| > 0 <==> |keyBase64| > 100 && keyBase64 in tokens
  {
    if |tokens| == 0 then []
    else
      (if |tokens[0]| > 100 && keyBase64 == tokens[0] then [userId] else [])
      + TokenMatches(userId, tokens[1..], keyBase64)
  }

  /** The users whose listed public key matches, in reply order. */
  function MatchingUsers(keys: seq<HubUserKey>, keyBase64: string): (r: seq<string>)
    ensures forall u :: u in r ==> exists i :: 0 <= i < |keys| && keys[i].userId == u && KeyListed(keys[i], keyBase64)
    ensures forall i :: 0 <= i < |keys| && KeyListed(keys[i], keyBase64) ==> keys[i].userId in r
  {
    if |keys| == 0 then []
    else
      var head := TokenMatches(keys[0].userId, Strings.Split(keys[0].publicKey, ' '), keyBase64);
      var rest := MatchingUsers(keys[1..], keyBase64);
      assert forall i :: 1 <= i < |keys| ==> keys[i] == keys[1..][i - 1];
      assert |head| > 0 ==> head[0] in head + rest;
      head + rest
  }

  /** Matching distributes over the reply list, so the result follows reply order. */
  lemma {:induction false} MatchingUsersAppend(a: seq<HubUserKey>, b: seq<HubUserKey>, keyBase64: string)
    ensures MatchingUsers(a + b, keyBase64) == MatchingUsers(a, keyBase64) + MatchingUsers(b, keyBase64)
    decreases |a|
  {
    if |a| > 0 {
      assert (a + b)[1..] == a[1..] + b;
      assert (a + b)[0] == a[0];
      MatchingUsersAppend(a[1..], b, keyBase64);
    } else {
      assert a + b == b;
    }
  }

  /** `UsersBySshKey`: the Hub's reply to the fingerprint search turned into user ids. */
  function UsersBySshKey(noExtApiCalls: bool, keyBase64: string, reply: Result<HttpReply>,
                         decode: seq<byte> -> Result<seq<HubUserKey>>): (r: Result<seq<string>>)
    ensures noExtApiCalls ==> r == Ok(AgileUsers)
    ensures !noExtApiCalls && reply.Ok? && reply.value.status == 404 ==> r == Ok([])
    ensures !noExtApiCalls && reply.Ok? && reply.value.status != 200 && reply.value.status != 404 ==> r.Err?
    ensures !noExtApiCalls && reply.Ok? && reply.value.status == 200 && (|reply.value.body| < 2 || reply.value.readErr.Some?) ==> r.Err?
    ensures !noExtApiCalls && reply.Err? ==> r.Err?
    ensures !noExtApiCalls && Readable(reply) ==> (r.Ok? <==> decode(reply.value.body).Ok?)
    ensures !noExtApiCalls && r.Ok? && !(reply.Ok? && reply.value.status == 404) ==>
      Readable(reply) && decode(reply.value.body).Ok? &&
      var keys := decode(reply.value.body).value;
      r.value == MatchingUsers(keys, keyBase64) &&
      forall u :: u in r.value <==> (exists i :: 0 <= i < |keys| && keys[i].userId == u && KeyListed(keys[i], keyBase64))
  {
    if noExtApiCalls then Ok(AgileUsers)
    else match reply
      case Err(e) => Err("Error querying Hub user SSH keys: " + e)
      case Ok(resp) =>
        if resp.status == 404 then Ok([])
        else if resp.status != 200 then Err("Got " + Numerals.Itoa(resp.status) + " HTTP querying Hub user SSH keys")
        else if |resp.body| < 2 || resp.readErr.Some? then
          Err("Error reading Hub response (read " + Numerals.Itoa(|resp.body|) + " bytes): " + ErrorText(resp.readErr))
        else match decode(resp.body)
          case Err(e) => Err("Error unmarshalling Hub user SSH keys response: " + e)
          case Ok(keys) => Ok(MatchingUsers(keys, keyBase64))
  }

  /** The ids of the members whose status is exactly "ACTIVE", in reply order. */
  function ActiveMembers(members: seq<AuthTeamMember>): (r: seq<string>)
    ensures |r| <= |members|
    ensures forall u :: u in r <==> exists i :: 0 <= i < |members| && members[i].status == "ACTIVE" && members[i].id == u
  {
    if |members| == 0 then []
    else
      var rest := ActiveMembers(members[1..]);
      assert forall i :: 1 <= i < |members| ==> members[i] == members[1..][i - 1];
      (if members[0].status == "ACTIVE" then [members[0].id] else []) + rest
  }

  /** Filtering distributes over the member list, so the result follows reply order. */
  lemma {:induction false} ActiveMembersAppend(a: seq<AuthTeamMember>, b: seq<AuthTeamMember>)
    ensures ActiveMembers(a + b) == ActiveMembers(a) + ActiveMembers(b)
    decreases |a|
  {
    if |a| > 0 {
      assert (a + b)[1..] == a[1..] + b;
      assert (a + b)[0] == a[0];
      ActiveMembersAppend(a[1..], b);
    } else {
      assert a + b == b;
    }
  }

  /** `UsersByTeam`: the Auth Service's reply for team `teamId` turned into member ids.
      `requestErr` is the error of building the request (a malformed endpoint URL). */
  function UsersByTeam(noExtApiCalls: bool, teamId: string, requestErr: Option<string>, reply: Result<HttpReply>,
                       decode: seq<byte> -> Result<seq<AuthTeamMember>>): (r: Result<seq<string>>)
    ensures noExtApiCalls ==> (r.Ok? <==> teamId == "1")
    ensures noExtApiCalls && r.Ok? ==> r.value == AgileUsers
    ensures !noExtApiCalls && requestErr.Some? ==> r == Err("Error creating Auth Service request: " + requestErr.value)
    ensures !noExtApiCalls && requestErr.None? && reply.Ok? && reply.value.status == 404 ==>
      r == Err("No `" + teamId + "` team found")
    ensures !noExtApiCalls && reply.Ok? && reply.value.status != 200 ==> r.Err?
    ensures !noExtApiCalls && reply.Ok? && (|reply.value.body| < 2 || reply.value.readErr.Some?) ==> r.Err?
    ensures !noExtApiCalls && reply.Err? ==> r.Err?
    ensures !noExtApiCalls && requestErr.None? && Readable(reply) ==> (r.Ok? <==> decode(reply.value.body).Ok?)
    ensures !noExtApiCalls && r.Ok? ==>
      requestErr.None? && Readable(reply) && decode(reply.value.body).Ok? &&
      var team := decode(reply.value.body).value;
      r.value == ActiveMembers(team) &&
      forall u :: u in r.value <==> (exists i :: 0 <= i < |team| && team[i].status == "ACTIVE" && team[i].id == u)
  {
    if noExtApiCalls then
      if teamId == "1" then Ok(AgileUsers) else Err("No `" + teamId + "` team found")
    else if requestErr.Some? then Err("Error creating Auth Service request: " + requestErr.value)
    else match reply
      case Err(e) => Err("Error querying Auth Service team: " + e)
      case Ok(resp) =>
        if resp.status == 404 then Err("No `" + teamId + "` team found")
        else if resp.status != 200 then Err("Got " + Numerals.Itoa(resp.status) + " HTTP querying Auth Service team")
        else if |resp.body| < 2 || resp.readErr.Some? then
          Err("Error reading Auth Service response (read " + Numerals.Itoa(|resp.body|) + " bytes): " + ErrorText(resp.readErr))
        else match decode(resp.body)
          case Err(e) => Err("Error unmarshalling Auth Service team response: " + e)
          case Ok(team) => Ok(ActiveMembers(team))
  }
}
