/** The access engine of cmd/gits/repo/permissions.go, and the older verb-less
    variant of api/src/gits/repo/permissions.go.

    A repository id has the form `<orgId>/<anything>-<templateId>`. Access is
    granted when one of the presented users owns the template or belongs to
    one of its teams (with write permission when the verb is a push). The
    external lookups are oracles collected in a `Directory`.
 */
module Permissions {
  import opened Wrappers
  import Strings
  import opened ExtApi

  /** The git verb that asks for write access. */
  const WriteVerb := "git-receive-pack"

  /** The directory services the engine consults. */
  datatype Directory = Directory(
    orgById: string -> Result<Org>,
    templateById: string -> Result<Template>,
    usersByTeam: string -> Result<seq<string>>,
    login: (string, string) -> Result<AuthUser>)

  /** A grant of access to one user. */
  datatype UserAccess = UserAccess(userId: string, canWrite: bool)

  /** The `(bool, error)` answer of the engine. A soft error (a team lookup
      that failed) can accompany either answer. */
  datatype Decision = Decision(granted: bool, err: Option<string>)

  /** `orgId`: the text before the first '/', which must be neither the first
      nor the last character. */
  function OrgId(repo: string): (r: Result<string>)
    ensures r.Ok? ==> r.value != [] && '/' !in r.value && |r.value| + 1 < |repo| &&
                      repo == r.value + "/" + repo[|r.value| + 1..]
    ensures r.Err? ==> r.error == "Unable to determine stack organization id from repo name `" + repo + "`"
  {
    var slash := Strings.IndexOf(repo, '/');
    if slash < 1 || slash >= |repo| - 1 then
      Err("Unable to determine stack organization id from repo name `" + repo + "`")
    else
      assert repo == repo[..slash] + "/" + repo[slash + 1..];
      Ok(repo[..slash])
  }

  /** Every well-formed `<org>/<rest>` yields `org`: the converse of `OrgId`'s contract. */
  lemma OrgIdComplete(org: string, rest: string)
    requires org != [] && '/' !in org && rest != []
    ensures OrgId(org + "/" + rest) == Ok(org)
  {
    Strings.IndexOfAfterPrefix(org, '/', rest);
    assert (org + "/" + rest)[..|org|] == org;
  }

  /** `TemplateId`: the text after the last '-', which must sit after position 1
      and before the last character. */
  function TemplateId(repo: string): (r: Result<string>)
    ensures r.Ok? ==> r.value != [] && '-' !in r.value && |r.value| + 3 <= |repo| &&
                      repo == repo[..|repo| - |r.value| - 1] + "-" + r.value
    ensures r.Err? ==> r.error == "Unable to determine stack template id from repo name `" + repo + "`"
  {
    var dash := Strings.LastIndexOf(repo, '-');
    if dash <= 1 || dash >= |repo| - 1 then
      Err("Unable to determine stack template id from repo name `" + repo + "`")
    else
      assert repo == repo[..dash] + "-" + repo[dash + 1..];
      Ok(repo[dash + 1..])
  }

  /** Every `<prefix>-<id>` with a prefix of two or more characters and a dash-free
      id yields `id`: the converse of `TemplateId`'s contract. */
  lemma TemplateIdComplete(prefix: string, id: string)
    requires |prefix| >= 2 && id != [] && '-' !in id
    ensures TemplateId(prefix + "-" + id) == Ok(id)
  {
    var s := prefix + "-" + id;
    var d := Strings.LastIndexOf(s, '-');
    assert s[|prefix|] == '-';
    forall k | |prefix| < k < |s|
      ensures s[k] != '-'
    {
      assert s[k] == id[k - |prefix| - 1];
    }
    assert s[|prefix| + 1..] == id;
  }

  /** Both ids of a repository, in the order the engine derives them. */
  function ParseRepo(repo: string): (r: Result<(string, string)>)
    ensures r.Ok? <==> OrgId(repo).Ok? && TemplateId(repo).Ok?
    ensures r.Ok? ==> r.value == (OrgId(repo).value, TemplateId(repo).value)
    ensures r.Err? ==> r.error == (if OrgId(repo).Err? then OrgId(repo).error else TemplateId(repo).error)
  {
    var orgId :- OrgId(repo);
    var templateId :- TemplateId(repo);
    Ok((orgId, templateId))
  }

  /** The organization must exist and show source; then the template must exist. */
  function ResolveTemplate(dir: Directory, orgId: string, templateId: string): (r: Result<Template>)
    ensures r.Ok? <==> dir.orgById(orgId).Ok? && dir.orgById(orgId).value.showSource &&
                       dir.templateById(templateId).Ok?
    ensures r.Ok? ==> r.value == dir.templateById(templateId).value
    ensures dir.orgById(orgId).Err? ==>
      r == Err("Unable to fetch organization `" + orgId + "` info: " + dir.orgById(orgId).error)
    ensures dir.orgById(orgId).Ok? && !dir.orgById(orgId).value.showSource ==>
      r == Err("Organization `" + orgId + "` has no source code access")
    ensures dir.orgById(orgId).Ok? && dir.orgById(orgId).value.showSource && dir.templateById(templateId).Err? ==>
      r == Err("Unable to fetch template `" + templateId + "` info: " + dir.templateById(templateId).error)
  {
    match dir.orgById(orgId)
    case Err(e) => Err("Unable to fetch organization `" + orgId + "` info: " + e)
    case Ok(org) =>
      if !org.showSource then Err("Organization `" + orgId + "` has no source code access")
      else match dir.templateById(templateId)
        case Err(e) => Err("Unable to fetch template `" + templateId + "` info: " + e)
        case Ok(t) => Ok(t)
  }

  function TeamIds(teams: seq<TeamAccess>): (r: seq<string>)
    ensures |r| == |teams| && forall j :: 0 <= j < |teams| ==> r[j] == teams[j].teamId
  {
    seq(|teams|, j requires 0 <= j < |teams| => teams[j].teamId)
  }

  /** `e` is the error of the first failing lookup among `ids`, and `None`
      exactly when every lookup succeeds. */
  ghost predicate IsFirstLookupError(ids: seq<string>, lookup: string -> Result<seq<string>>, e: Option<string>) {
    (e.None? <==> forall j :: 0 <= j < |ids| ==> lookup(ids[j]).Ok?) &&
    (e.Some? ==> exists j :: 0 <= j < |ids| && lookup(ids[j]) == Err(e.value) &&
                             forall k :: 0 <= k < j ==> lookup(ids[k]).Ok?)
  }

  /** Team `team` lets `user` in, for a write when `write` holds. */
  ghost predicate TeamAdmits(lookup: string -> Result<seq<string>>, team: TeamAccess, user: string, write: bool) {
    lookup(team.teamId).Ok? && user in lookup(team.teamId).value && (!write || team.canWrite)
  }

  /** The reference rule: some presented user owns the template or is let in by one of its teams. */
  ghost predicate Entitled(lookup: string -> Result<seq<string>>, t: Template, users: seq<string>, write: bool) {
    exists i :: 0 <= i < |users| &&
      (users[i] == t.ownerUserId || exists j :: 0 <= j < |t.teams| && TeamAdmits(lookup, t.teams[j], users[i], write))
  }

  /** The grants collected from the teams, and the first team lookup error. */
  datatype Grants = Grants(granted: seq<UserAccess>, teamErr: Option<string>)

  function MembersOf(users: seq<string>, canWrite: bool): (r: seq<UserAccess>)
    ensures |r| == |users| && forall k :: 0 <= k < |users| ==> r[k] == UserAccess(users[k], canWrite)
  {
    seq(|users|, k requires 0 <= k < |users| => UserAccess(users[k], canWrite))
  }

  /** The team loop of `Access`: every member of every team that resolves is
      granted with the team's write flag, in team order; the first lookup error is kept. */
  function CollectGrants(teams: seq<TeamAccess>, lookup: string -> Result<seq<string>>): (r: Grants)
    ensures r.teamErr.None? <==> forall j :: 0 <= j < |teams| ==> lookup(teams[j].teamId).Ok?
    decreases |teams|
  {
    if |teams| == 0 then Grants([], None)
    else
      var rest := CollectGrants(teams[1..], lookup);
      assert forall j :: 1 <= j < |teams| ==> teams[1..][j - 1] == teams[j];
      match lookup(teams[0].teamId)
      case Err(m) => Grants(rest.granted, Some(m))
      case Ok(us) => Grants(MembersOf(us, teams[0].canWrite) + rest.granted, rest.teamErr)
  }

  /** `ua` is justified by one of `teams`: it resolved, lists the user, and carries its write flag. */
  ghost predicate GrantedBy(teams: seq<TeamAccess>, lookup: string -> Result<seq<string>>, ua: UserAccess) {
    exists j :: 0 <= j < |teams| && lookup(teams[j].teamId).Ok? &&
      ua.userId in lookup(teams[j].teamId).value && ua.canWrite == teams[j].canWrite
  }

  /** Every grant comes from a team that resolved and lists the user. */
  lemma {:induction false} GrantsSound(teams: seq<TeamAccess>, lookup: string -> Result<seq<string>>)
    ensures forall ua :: ua in CollectGrants(teams, lookup).granted ==> GrantedBy(teams, lookup, ua)
    decreases |teams|
  {
    if |teams| > 0 {
      GrantsSound(teams[1..], lookup);
      var rest := CollectGrants(teams[1..], lookup).granted;
      var g := CollectGrants(teams, lookup).granted;
      forall ua | ua in g
        ensures GrantedBy(teams, lookup, ua)
      {
        if ua in rest {
          assert GrantedBy(teams[1..], lookup, ua);
          var j :| 0 <= j < |teams[1..]| && lookup(teams[1..][j].teamId).Ok? &&
            ua.userId in lookup(teams[1..][j].teamId).value && ua.canWrite == teams[1..][j].canWrite;
          assert teams[1..][j] == teams[j + 1];
        } else {
          var us := lookup(teams[0].teamId).value;
          var k :| 0 <= k < |g| && g[k] == ua;
          assert k < |us| && g[k] == UserAccess(us[k], teams[0].canWrite);
        }
      }
    }
  }

  /** Every member of every team that resolves is granted with the team's write flag. */
  lemma {:induction false} GrantsComplete(teams: seq<TeamAccess>, lookup: string -> Result<seq<string>>, j: int, u: string)
    requires 0 <= j < |teams| && lookup(teams[j].teamId).Ok? && u in lookup(teams[j].teamId).value
    ensures UserAccess(u, teams[j].canWrite) in CollectGrants(teams, lookup).granted
    decreases |teams|
  {
    var g := CollectGrants(teams, lookup).granted;
    var rest := CollectGrants(teams[1..], lookup).granted;
    if j == 0 {
      var us := lookup(teams[0].teamId).value;
      var k :| 0 <= k < |us| && us[k] == u;
      assert g[k] == UserAccess(u, teams[0].canWrite);
    } else {
      assert teams[1..][j - 1] == teams[j];
      GrantsComplete(teams[1..], lookup, j - 1, u);
      var k :| 0 <= k < |rest| && rest[k] == UserAccess(u, teams[j].canWrite);
      assert g[|g| - |rest| + k] == rest[k];
    }
  }

  /** The error reported is the one of the first team whose lookup failed. */
  lemma {:induction false} GrantsFirstError(teams: seq<TeamAccess>, lookup: string -> Result<seq<string>>)
    ensures IsFirstLookupError(TeamIds(teams), lookup, CollectGrants(teams, lookup).teamErr)
    decreases |teams|
  {
    if |teams| > 0 {
      var ids := TeamIds(teams);
      assert ids[1..] == TeamIds(teams[1..]);
      GrantsFirstError(teams[1..], lookup);
      if lookup(teams[0].teamId).Ok? {
        FirstErrorAfterSuccessIds(ids, lookup, CollectGrants(teams[1..], lookup).teamErr);
      } else {
        assert lookup(ids[0]) == Err(CollectGrants(teams, lookup).teamErr.value);
      }
    }
  }

  /** The nested matching loop: some user holds a grant fit for the request. */
  function AnyMatch(users: seq<string>, granted: seq<UserAccess>, write: bool): (r: bool)
    ensures r <==> (exists i, k :: 0 <= i < |users| && 0 <= k < |granted| &&
                      users[i] == granted[k].userId && (!write || granted[k].canWrite))
  {
    if |users| == 0 then false
    else if GrantMatches(users[0], granted, write) then true
    else
      var r := AnyMatch(users[1..], granted, write);
      assert forall i :: 1 <= i < |users| ==> users[i] == users[1..][i - 1];
      r
  }

  function GrantMatches(user: string, granted: seq<UserAccess>, write: bool): (r: bool)
    ensures r <==> exists k :: 0 <= k < |granted| && user == granted[k].userId && (!write || granted[k].canWrite)
  {
    if |granted| == 0 then false
    else if user == granted[0].userId && (!write || granted[0].canWrite) then true
    else
      var r := GrantMatches(user, granted[1..], write);
      assert forall k :: 1 <= k < |granted| ==> granted[k] == granted[1..][k - 1];
      r
  }

  /** An entitled user finds a matching grant. */
  lemma EntitledHasGrant(t: Template, lookup: string -> Result<seq<string>>, users: seq<string>, write: bool)
    requires Entitled(lookup, t, users, write)
    ensures AnyMatch(users, [UserAccess(t.ownerUserId, true)] + CollectGrants(t.teams, lookup).granted, write)
  {
    var grants := CollectGrants(t.teams, lookup).granted;
    var g := [UserAccess(t.ownerUserId, true)] + grants;
    var i :| 0 <= i < |users| &&
      (users[i] == t.ownerUserId || exists j :: 0 <= j < |t.teams| && TeamAdmits(lookup, t.teams[j], users[i], write));
    if users[i] == t.ownerUserId {
      assert users[i] == g[0].userId;
    } else {
      var j :| 0 <= j < |t.teams| && TeamAdmits(lookup, t.teams[j], users[i], write);
      var ua := UserAccess(users[i], t.teams[j].canWrite);
      GrantsComplete(t.teams, lookup, j, users[i]);
      var k :| 0 <= k < |grants| && grants[k] == ua;
      assert g[k + 1] == ua;
    }
  }

  /** A matching grant belongs to an entitled user. */
  lemma GrantImpliesEntitled(t: Template, lookup: string -> Result<seq<string>>, users: seq<string>, write: bool)
    requires AnyMatch(users, [UserAccess(t.ownerUserId, true)] + CollectGrants(t.teams, lookup).granted, write)
    ensures Entitled(lookup, t, users, write)
  {
    var grants := CollectGrants(t.teams, lookup).granted;
    var g := [UserAccess(t.ownerUserId, true)] + grants;
    var i, k :| 0 <= i < |users| && 0 <= k < |g| && users[i] == g[k].userId && (!write || g[k].canWrite);
    if k > 0 {
      assert g[k] == grants[k - 1];
      GrantsSound(t.teams, lookup);
      assert GrantedBy(t.teams, lookup, grants[k - 1]);
      var j :| 0 <= j < |t.teams| && lookup(t.teams[j].teamId).Ok? &&
        grants[k - 1].userId in lookup(t.teams[j].teamId).value && grants[k - 1].canWrite == t.teams[j].canWrite;
      assert TeamAdmits(lookup, t.teams[j], users[i], write);
    }
  }

  /** The owner grant plus the team grants decide exactly the reference rule. */
  lemma GrantsDecideEntitlement(t: Template, lookup: string -> Result<seq<string>>, users: seq<string>, write: bool)
    ensures AnyMatch(users, [UserAccess(t.ownerUserId, true)] + CollectGrants(t.teams, lookup).granted, write)
        <==> Entitled(lookup, t, users, write)
  {
    if AnyMatch(users, [UserAccess(t.ownerUserId, true)] + CollectGrants(t.teams, lookup).granted, write) {
      GrantImpliesEntitled(t, lookup, users, write);
    }
    if Entitled(lookup, t, users, write) {
      EntitledHasGrant(t, lookup, users, write);
    }
  }

  /** The template a request resolves to: the ids parse, the organization shows
      source, and the template exists. */
  function Resolve(dir: Directory, repo: string): (r: Result<Template>)
    ensures ParseRepo(repo).Err? ==> r == Err(ParseRepo(repo).error)
    ensures ParseRepo(repo).Ok? ==> r == ResolveTemplate(dir, ParseRepo(repo).value.0, ParseRepo(repo).value.1)
  {
    match ParseRepo(repo)
    case Err(e) => Err(e)
    case Ok((orgId, templateId)) => ResolveTemplate(dir, orgId, templateId)
  }

  /** `Access`: may one of `users` run `verb` on `repo`? */
  function Access(dir: Directory, repo: string, verb: string, users: seq<string>): (r: Decision)
    ensures Resolve(dir, repo).Err? ==> r == Decision(false, Some(Resolve(dir, repo).error))
    ensures r.granted <==>
      (Resolve(dir, repo).Ok? && Entitled(dir.usersByTeam, Resolve(dir, repo).value, users, verb == WriteVerb))
    ensures Resolve(dir, repo).Ok? ==>
      IsFirstLookupError(TeamIds(Resolve(dir, repo).value.teams), dir.usersByTeam, r.err)
  {
    match Resolve(dir, repo)
    case Err(e) => Decision(false, Some(e))
    case Ok(t) =>
      var g := CollectGrants(t.teams, dir.usersByTeam);
      var write := verb == WriteVerb;
      var granted := AnyMatch(users, [UserAccess(t.ownerUserId, true)] + g.granted, write);
      GrantsDecideEntitlement(t, dir.usersByTeam, users, write);
      GrantsFirstError(t.teams, dir.usersByTeam);
      Decision(granted, g.teamErr)
  }

  /** The owner of a reachable template is always let in, whatever the verb. */
  lemma OwnerAlwaysGranted(dir: Directory, repo: string, verb: string, users: seq<string>)
    requires Resolve(dir, repo).Ok? && Resolve(dir, repo).value.ownerUserId in users
    ensures Access(dir, repo, verb, users).granted
  {
    var t := Resolve(dir, repo).value;
    var i :| 0 <= i < |users| && users[i] == t.ownerUserId;
    assert Entitled(dir.usersByTeam, t, users, verb == WriteVerb);
  }

  /** Every verb except a push is judged as a read: only the push needs a write grant. */
  lemma ReadVerbsAgree(dir: Directory, repo: string, verb: string, users: seq<string>)
    requires verb != WriteVerb
    ensures Access(dir, repo, verb, users) == Access(dir, repo, "git-upload-pack", users)
  {
  }

  /** Whoever may push may also fetch. */
  lemma {:induction false} PushImpliesFetch(dir: Directory, repo: string, users: seq<string>)
    requires Access(dir, repo, WriteVerb, users).granted
    ensures Access(dir, repo, "git-upload-pack", users).granted
  {
    var t := Resolve(dir, repo).value;
    var i :| 0 <= i < |users| &&
      (users[i] == t.ownerUserId || exists j :: 0 <= j < |t.teams| && TeamAdmits(dir.usersByTeam, t.teams[j], users[i], true));
    if users[i] != t.ownerUserId {
      var j :| 0 <= j < |t.teams| && TeamAdmits(dir.usersByTeam, t.teams[j], users[i], true);
      assert TeamAdmits(dir.usersByTeam, t.teams[j], users[i], false);
    }
    assert Entitled(dir.usersByTeam, t, users, false);
  }

  /** Presenting more users never withdraws access. */
  lemma {:induction false} AccessMonotoneInUsers(dir: Directory, repo: string, verb: string, users: seq<string>, more: seq<string>)
    requires forall u :: u in users ==> u in more
    requires Access(dir, repo, verb, users).granted
    ensures Access(dir, repo, verb, more).granted
  {
    var t := Resolve(dir, repo).value;
    var write := verb == WriteVerb;
    var i :| 0 <= i < |users| &&
      (users[i] == t.ownerUserId || exists j :: 0 <= j < |t.teams| && TeamAdmits(dir.usersByTeam, t.teams[j], users[i], write));
    assert users[i] in more;
    var i' :| 0 <= i' < |more| && more[i'] == users[i];
    assert Entitled(dir.usersByTeam, t, more, write);
  }

  /** Adding members to teams never withdraws access: a directory whose team
      lookups succeed wherever the old ones did, with at least the old members,
      grants whatever the old one granted. */
  lemma AccessMonotoneInMembers(dir: Directory, more: string -> Result<seq<string>>,
                                repo: string, verb: string, users: seq<string>)
    requires forall id :: dir.usersByTeam(id).Ok? ==>
      more(id).Ok? && forall u :: u in dir.usersByTeam(id).value ==> u in more(id).value
    requires Access(dir, repo, verb, users).granted
    ensures Access(dir.(usersByTeam := more), repo, verb, users).granted
  {
    var dir2 := dir.(usersByTeam := more);
    assert Resolve(dir2, repo) == Resolve(dir, repo) by {
      if ParseRepo(repo).Ok? {
        var (o, tid) := ParseRepo(repo).value;
        assert ResolveTemplate(dir2, o, tid) == ResolveTemplate(dir, o, tid);
      }
    }
    var t := Resolve(dir, repo).value;
    var write := verb == WriteVerb;
    var i :| 0 <= i < |users| &&
      (users[i] == t.ownerUserId || exists j :: 0 <= j < |t.teams| && TeamAdmits(dir.usersByTeam, t.teams[j], users[i], write));
    if users[i] != t.ownerUserId {
      var j :| 0 <= j < |t.teams| && TeamAdmits(dir.usersByTeam, t.teams[j], users[i], write);
      assert TeamAdmits(more, t.teams[j], users[i], write);
    }
    assert Entitled(more, t, users, write);
  }

  /** An organization that hides source denies everyone, with its own message. */
  lemma HiddenSourceDenies(dir: Directory, repo: string, verb: string, users: seq<string>)
    requires ParseRepo(repo).Ok?
    requires dir.orgById(ParseRepo(repo).value.0).Ok? && !dir.orgById(ParseRepo(repo).value.0).value.showSource
    ensures Access(dir, repo, verb, users) ==
      Decision(false, Some("Organization `" + ParseRepo(repo).value.0 + "` has no source code access"))
  {
  }

  /** Team names `groups` share one with a template team fit for the request. */
  function GroupMatches(groups: seq<string>, teams: seq<TeamAccess>, write: bool): (r: bool)
    ensures r <==> (exists i, j :: 0 <= i < |groups| && 0 <= j < |teams| &&
                      groups[i] == teams[j].teamName && (!write || teams[j].canWrite))
  {
    if |groups| == 0 then false
    else if TeamNamed(groups[0], teams, write) then true
    else
      var r := GroupMatches(groups[1..], teams, write);
      assert forall i :: 1 <= i < |groups| ==> groups[i] == groups[1..][i - 1];
      r
  }

  function TeamNamed(name: string, teams: seq<TeamAccess>, write: bool): (r: bool)
    ensures r <==> exists j :: 0 <= j < |teams| && name == teams[j].teamName && (!write || teams[j].canWrite)
  {
    if |teams| == 0 then false
    else if name == teams[0].teamName && (!write || teams[0].canWrite) then true
    else
      var r := TeamNamed(name, teams[1..], write);
      assert forall j :: 1 <= j < |teams| ==> teams[j] == teams[1..][j - 1];
      r
  }

  /** Organization names are compared after ASCII lower-casing. */
  predicate SameOrg(a: string, b: string) {
    Strings.ToLower(a) == Strings.ToLower(b)
  }

  /** The reference rule for a signed-in user: same organization, and either the
      template's owner or a member of one of its teams fit for the request. */
  ghost predicate LoginEntitled(org: string, user: AuthUser, t: Template, write: bool) {
    SameOrg(org, user.organization) &&
    (user.uid == t.ownerUserId ||
     exists i, j :: 0 <= i < |user.groups| && 0 <= j < |t.teams| &&
       user.groups[i] == t.teams[j].teamName && (!write || t.teams[j].canWrite))
  }

  /** `AccessWithLogin`: may the signed-in `username` run `verb` on `repo` of organization `org`? */
  function AccessWithLogin(dir: Directory, org: string, repo: string, verb: string,
                           username: string, password: string): (r: Decision)
    ensures r.granted ==> r.err.None?
    ensures ParseRepo(repo).Err? ==> r == Decision(false, Some(ParseRepo(repo).error))
    ensures ParseRepo(repo).Ok? && dir.login(username, password).Err? ==>
      r == Decision(false, Some("Unable to signin user `" + username + "`: " + dir.login(username, password).error))
    ensures ParseRepo(repo).Ok? && dir.login(username, password).Ok? &&
            !SameOrg(org, dir.login(username, password).value.organization) ==>
      r == Decision(false, Some("User org `" + dir.login(username, password).value.organization +
                                "` does not match repo org `" + org + "`"))
    ensures r.granted <==>
      (ParseRepo(repo).Ok? && dir.login(username, password).Ok? && Resolve(dir, repo).Ok? &&
       LoginEntitled(org, dir.login(username, password).value, Resolve(dir, repo).value, verb == WriteVerb))
    ensures r.err.None? ==>
      (ParseRepo(repo).Ok? && dir.login(username, password).Ok? && Resolve(dir, repo).Ok?)
  {
    match ParseRepo(repo)
    case Err(e) => Decision(false, Some(e))
    case Ok((orgId, templateId)) =>
      match dir.login(username, password)
      case Err(e) => Decision(false, Some("Unable to signin user `" + username + "`: " + e))
      case Ok(user) =>
        if !SameOrg(org, user.organization) then
          Decision(false, Some("User org `" + user.organization + "` does not match repo org `" + org + "`"))
        else match ResolveTemplate(dir, orgId, templateId)
          case Err(e) => Decision(false, Some(e))
          case Ok(t) =>
            if user.uid == t.ownerUserId then Decision(true, None)
            else Decision(GroupMatches(user.groups, t.teams, verb == WriteVerb), None)
  }

  /** The template record of the older service: the owner and bare team ids. */
  datatype LegacyTemplate = LegacyTemplate(ownerUserId: string, teams: seq<string>)

  /** The fixed template lookup of the older service: any id starting with "1"
      names the template owned by "arkadi" with teams "1" and "2". */
  function LegacyTemplateById(templateId: string): (r: Result<LegacyTemplate>)
    ensures r.Ok? <==> Strings.HasPrefix(templateId, "1")
    ensures r.Ok? ==> r.value.ownerUserId == "arkadi" && r.value.teams == ["1", "2"]
  {
    if Strings.HasPrefix(templateId, "1") then Ok(LegacyTemplate("arkadi", ["1", "2"]))
    else Err("No `" + templateId + "` template found")
  }

  /** The fixed team lookup of the older service: only team "1" exists. */
  function LegacyUsersByTeam(teamId: string): (r: Result<seq<string>>)
    ensures r.Ok? <==> teamId == "1"
    ensures r.Ok? ==> "rick" in r.value && "arkadi" in r.value
  {
    if teamId == "1" then Ok(["arkadi", "anton", "igor", "igorlysak", "nikolay", "oleg", "rick"])
    else Err("No `" + teamId + "` team found")
  }

  /** The team loop of the older engine: members of the resolving teams, and the first error. */
  function CollectMembers(ids: seq<string>, lookup: string -> Result<seq<string>>): (r: (seq<string>, Option<string>))
    ensures forall u :: u in r.0 <==> exists j :: 0 <= j < |ids| && lookup(ids[j]).Ok? && u in lookup(ids[j]).value
    ensures IsFirstLookupError(ids, lookup, r.1)
    decreases |ids|
  {
    if |ids| == 0 then ([], None)
    else
      var rest := CollectMembers(ids[1..], lookup);
      assert forall j :: 1 <= j < |ids| ==> ids[1..][j - 1] == ids[j];
      match lookup(ids[0])
      case Err(m) => (rest.0, Some(m))
      case Ok(us) =>
        FirstErrorAfterSuccessIds(ids, lookup, rest.1);
        (us + rest.0, rest.1)
  }

  /** A first error among the later lookups stays the first error when the leading lookup succeeds. */
  lemma FirstErrorAfterSuccessIds(ids: seq<string>, lookup: string -> Result<seq<string>>, e: Option<string>)
    requires |ids| > 0 && lookup(ids[0]).Ok?
    requires IsFirstLookupError(ids[1..], lookup, e)
    ensures IsFirstLookupError(ids, lookup, e)
  {
    var tail := ids[1..];
    assert forall j :: 1 <= j < |ids| ==> ids[j] == tail[j - 1];
    if e.Some? {
      var j :| 0 <= j < |tail| && lookup(tail[j]) == Err(e.value) && forall k :: 0 <= k < j ==> lookup(tail[k]).Ok?;
      assert lookup(ids[j + 1]) == Err(e.value);
      forall k | 0 <= k < j + 1
        ensures lookup(ids[k]).Ok?
      {
        if k > 0 {
          assert ids[k] == tail[k - 1];
        }
      }
    } else {
      forall j | 0 <= j < |ids|
        ensures lookup(ids[j]).Ok?
      {
        if j > 0 {
          assert ids[j] == tail[j - 1];
        }
      }
    }
  }

  /** The nested matching loop of the older engine: some user appears among the granted ids. */
  function AnyListed(users: seq<string>, granted: seq<string>): (r: bool)
    ensures r <==> exists i :: 0 <= i < |users| && users[i] in granted
  {
    if |users| == 0 then false
    else if users[0] in granted then true
    else
      var r := AnyListed(users[1..], granted);
      assert forall i :: 1 <= i < |users| ==> users[i] == users[1..][i - 1];
      r
  }

  /** The reference rule of the older engine: some user owns the template or is a member of one of its teams. */
  ghost predicate LegacyEntitled(lookup: string -> Result<seq<string>>, t: LegacyTemplate, users: seq<string>) {
    exists i :: 0 <= i < |users| && (users[i] == t.ownerUserId ||
      exists j :: 0 <= j < |t.teams| && lookup(t.teams[j]).Ok? && users[i] in lookup(t.teams[j]).value)
  }

  /** `access` of the older service: verb-less, no organization check. */
  function LegacyAccess(templateById: string -> Result<LegacyTemplate>, lookup: string -> Result<seq<string>>,
                        repo: string, users: seq<string>): (r: Decision)
    ensures TemplateId(repo).Err? ==> r == Decision(false, Some(TemplateId(repo).error))
    ensures TemplateId(repo).Ok? && templateById(TemplateId(repo).value).Err? ==>
      r == Decision(false, Some("Unable to fetch template `" + TemplateId(repo).value + "` info: " +
                                templateById(TemplateId(repo).value).error))
    ensures r.granted <==>
      (TemplateId(repo).Ok? && templateById(TemplateId(repo).value).Ok? &&
       LegacyEntitled(lookup, templateById(TemplateId(repo).value).value, users))
    ensures TemplateId(repo).Ok? && templateById(TemplateId(repo).value).Ok? ==>
      IsFirstLookupError(templateById(TemplateId(repo).value).value.teams, lookup, r.err)
  {
    match TemplateId(repo)
    case Err(e) => Decision(false, Some(e))
    case Ok(templateId) =>
      match templateById(templateId)
      case Err(e) => Decision(false, Some("Unable to fetch template `" + templateId + "` info: " + e))
      case Ok(t) =>
        var (members, teamErr) := CollectMembers(t.teams, lookup);
        var granted := [t.ownerUserId] + members;
        assert forall k :: 1 <= k < |granted| ==> granted[k] == members[k - 1];
        assert forall u :: u in members ==> u in granted;
        Decision(AnyListed(users, granted), teamErr)
  }

  /** With the fixed lookups, team "1" contributes its members and team "2" its error. */
  lemma LegacyFixtureMembers()
    ensures CollectMembers(["1", "2"], LegacyUsersByTeam) ==
            (LegacyUsersByTeam("1").value, Some("No `2` team found"))
  {
    assert ["2"][1..] == [] && ["2"][0] == "2";
    assert ["1", "2"][1..] == ["2"] && ["1", "2"][0] == "1";
    assert CollectMembers([], LegacyUsersByTeam) == ([], None);
    assert "No `" + "2" + "` team found" == "No `2` team found";
    assert CollectMembers(["2"], LegacyUsersByTeam) == ([], Some("No `2` team found"));
    assert LegacyUsersByTeam("1").value + [] == LegacyUsersByTeam("1").value;
  }

  lemma LegacyFixtureTemplateId()
    ensures TemplateId("org/stack-1a") == Ok("1a")
  {
    TemplateIdComplete("org/stack", "1a");
    assert "org/stack" + "-" + "1a" == "org/stack-1a";
  }

  /** With the fixed lookups, a member of team "1" is let in and the missing
      team "2" is reported alongside. */
  lemma LegacyFixtureScenario()
    ensures LegacyAccess(LegacyTemplateById, LegacyUsersByTeam, "org/stack-1a", ["rick"]) ==
            Decision(true, Some("No `2` team found"))
  {
    LegacyFixtureTemplateId();
    assert LegacyTemplateById("1a") == Ok(LegacyTemplate("arkadi", ["1", "2"]));
    LegacyFixtureMembers();
    var granted := ["arkadi"] + LegacyUsersByTeam("1").value;
    assert granted[7] == "rick";
    assert AnyListed(["rick"], granted);
  }
}
