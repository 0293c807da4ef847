/** The SSH front end of cmd/gits/ssh/server.go: public-key authentication,
    the per-connection user list, the channel rules and the request loop of a
    session channel.

    The SSH transport itself (handshake, channel multiplexing, goroutines) is
    not modelled. A connection is the list of channel-open requests it makes,
    and a session channel is the list of requests sent on it; what the server
    does in answer is a list of actions. Starting and waiting for the git
    process are oracles, and access is decided by the engine of `Permissions`.
 */
module SshServer {
  import opened Wrappers
  import Strings
  import Permissions
  import GitCommand
  import ExtApi

  /** The extension key under which the users are stored. */
  const UsersExtensionKey := "users"

  /** `checkKey`: the users found for the key, joined with ","; no users is an
      authentication failure, and so is a failed lookup. */
  function CheckKey(lookup: Result<seq<string>>, keyPrint: string): (r: Result<string>)
    ensures r.Ok? <==> lookup.Ok? && |lookup.value| > 0
    ensures lookup.Err? ==> r == Err(lookup.error)
    ensures lookup.Ok? && |lookup.value| == 0 ==> r == Err("No users matching SSH key `" + keyPrint + "`")
    ensures r.Ok? ==> forall u :: u in lookup.value ==> Strings.Contains(r.value, u)
  {
    match lookup
    case Err(e) => Err(e)
    case Ok(users) =>
      if |users| == 0 then Err("No users matching SSH key `" + keyPrint + "`")
      else
        JoinContains(users, ",");
        Ok(Strings.Join(users, ","))
  }

  /** Every part of a join occurs in it. */
  lemma {:induction false} JoinContains(parts: seq<string>, sep: string)
    ensures forall u :: u in parts ==> Strings.Contains(Strings.Join(parts, sep), u)
    decreases |parts|
  {
    if |parts| > 0 {
      JoinContains(parts[1..], sep);
      var j := Strings.Join(parts, sep);
      forall u | u in parts
        ensures Strings.Contains(j, u)
      {
        if u == parts[0] {
          JoinStartsWith(parts, sep);
          assert Strings.IsAt(j, u, 0);
        } else {
          assert u in parts[1..];
          var rest := Strings.Join(parts[1..], sep);
          assert Strings.Contains(rest, u);
          var k :| 0 <= k && Strings.IsAt(rest, u, k);
          JoinTail(parts, sep);
          ShiftIsAt(parts[0] + sep, rest, u, k);
        }
      }
    }
  }

  lemma JoinStartsWith(parts: seq<string>, sep: string)
    requires |parts| > 0
    ensures Strings.HasPrefix(Strings.Join(parts, sep), parts[0])
  {
  }

  lemma JoinTail(parts: seq<string>, sep: string)
    requires |parts| > 1
    ensures Strings.Join(parts, sep) == parts[0] + sep + Strings.Join(parts[1..], sep)
  {
  }

  lemma ShiftIsAt(a: string, b: string, u: string, k: int)
    requires 0 <= k && Strings.IsAt(b, u, k)
    ensures Strings.IsAt(a + b, u, |a| + k)
  {
    assert (a + b)[|a| + k..|a| + k + |u|] == b[k..k + |u|];
  }

  /** `handle`: the stored string split back into users. */
  function UsersOf(stored: string): (r: seq<string>)
    ensures |r| >= 1
    ensures forall i :: 0 <= i < |r| ==> ',' !in r[i]
    ensures Strings.Join(r, ",") == stored
  {
    Strings.Split(stored, ',')
  }

  /** The users survive the trip through the connection's permissions when no
      user id contains ",". */
  lemma StoredUsersRoundTrip(lookup: Result<seq<string>>, keyPrint: string)
    requires lookup.Ok? && |lookup.value| > 0
    requires forall i :: 0 <= i < |lookup.value| ==> ',' !in lookup.value[i]
    ensures CheckKey(lookup, keyPrint).Ok?
    ensures UsersOf(CheckKey(lookup, keyPrint).value) == lookup.value
  {
    Strings.SplitJoin(lookup.value, ',');
  }

  /** With external calls off, any key signs in the fixture users, and the
      connection carries exactly them. */
  lemma FixtureUsersSignIn(keyBase64: string, reply: Result<ExtApi.HttpReply>,
                           decode: seq<byte> -> Result<seq<ExtApi.HubUserKey>>, keyPrint: string)
    ensures var stored := CheckKey(ExtApi.UsersBySshKey(true, keyBase64, reply, decode), keyPrint);
      stored.Ok? && UsersOf(stored.value) == ExtApi.AgileUsers
  {
    StoredUsersRoundTrip(Ok(ExtApi.AgileUsers), keyPrint);
  }

  /** The reason codes of a rejected channel (section 5.1 of RFC 4254). */
  const Prohibited := 1
  const UnknownChannelType := 3

  /** A channel-open request: its type, and the error `Accept` returns for it. */
  datatype NewChannel = NewChannel(channelType: string, acceptErr: Option<string>)

  /** What became of a channel-open request. An accepted session serves `users`. */
  datatype ChannelOutcome =
    | Rejected(reason: int, message: string)
    | AcceptFailed
    | Session(users: seq<string>)

  const SessionOnly := "Only `session` channel is supported"

  /** `handle`: the maintenance probe is consulted once, when the connection is
      set up, and its answer governs every channel of the connection. */
  function Handle(stored: string, maintenance: (bool, string), channels: seq<NewChannel>): (r: seq<ChannelOutcome>)
    ensures |r| == |channels|
    ensures maintenance.0 ==> forall i :: 0 <= i < |r| ==> r[i] == Rejected(Prohibited, maintenance.1)
    ensures !maintenance.0 ==> forall i :: 0 <= i < |r| ==>
      (r[i].Rejected? <==> channels[i].channelType != "session") &&
      (r[i].Rejected? ==> r[i] == Rejected(UnknownChannelType, SessionOnly)) &&
      (r[i].Session? <==> channels[i].channelType == "session" && channels[i].acceptErr.None?)
    ensures forall i :: 0 <= i < |r| && r[i].Session? ==> r[i].users == UsersOf(stored)
    decreases |channels|
  {
    if |channels| == 0 then []
    else
      var c := channels[0];
      var first :=
        if maintenance.0 then Rejected(Prohibited, maintenance.1)
        else if c.channelType != "session" then Rejected(UnknownChannelType, SessionOnly)
        else if c.acceptErr.Some? then AcceptFailed
        else Session(UsersOf(stored));
      var rest := Handle(stored, maintenance, channels[1..]);
      assert forall i :: 1 <= i < |channels| ==> channels[i] == channels[1..][i - 1];
      [first] + rest
  }

  /** A session channel is served only while maintenance is off. */
  lemma NoSessionInMaintenance(stored: string, message: string, channels: seq<NewChannel>)
    ensures forall i :: 0 <= i < |channels| ==> !Handle(stored, (true, message), channels)[i].Session?
  {
  }

  /** `gitCommand`: whatever precedes the first "git-" is dropped, when there
      is something before it. */
  function GitCommandOf(cmd: string): (r: string)
    ensures Strings.HasSuffix(cmd, r)
    ensures !Strings.Contains(cmd, "git-") ==> r == cmd
    ensures Strings.Contains(cmd, "git-") ==> Strings.HasPrefix(r, "git-")
    ensures Strings.Contains(cmd, "git-") ==> !Strings.Contains(cmd[..|cmd| - |r|], "git-")
  {
    var i := Strings.Index(cmd, "git-");
    if i > 0 then
      assert cmd[i..][..4] == cmd[i..i + 4];
      assert cmd[..|cmd| - |cmd[i..]|] == cmd[..i];
      NoMatchBefore(cmd, "git-", i);
      cmd[i..]
    else
      assert i == 0 ==> cmd[..4] == cmd[0..4];
      assert cmd[..0] == [];
      cmd
  }

  /** No occurrence of `sub` lies wholly before its first occurrence. */
  lemma NoMatchBefore(s: string, sub: string, i: int)
    requires 0 <= i <= |s| && |sub| > 0
    requires forall j :: 0 <= j < i ==> !Strings.IsAt(s, sub, j)
    ensures !Strings.Contains(s[..i], sub)
  {
    if Strings.Contains(s[..i], sub) {
      assert |s[..i]| == i;
      var j :| 0 <= j <= i - |sub| && Strings.IsAt(s[..i], sub, j);
      assert s[..i][j..j + |sub|] == s[j..j + |sub|];
      assert Strings.IsAt(s, sub, j);
    }
  }

  /** Extracting the command twice is extracting it once. */
  lemma GitCommandIdempotent(cmd: string)
    ensures GitCommandOf(GitCommandOf(cmd)) == GitCommandOf(cmd)
  {
    var r := GitCommandOf(cmd);
    if Strings.Contains(cmd, "git-") {
      assert Strings.IsAt(r, "git-", 0);
      assert Strings.Index(r, "git-") == 0;
    } else {
      assert r == cmd;
    }
  }

  /** A request on a session channel. */
  datatype SshRequest = SshRequest(kind: string, wantReply: bool, payload: string)

  /** What the server does on the channel. */
  datatype ChannelAction =
    | Reply(ok: bool)
    | ExitStatus(payload: seq<byte>)
    | Close

  /** The separator and the cut character of an `env` payload. */
  const VTab: char := 11 as char
  const Backspace: char := 8 as char

  /** The parsing of an `env` request: a name and a value separated by "\v",
      after removing NULs, with leading backspaces cut from the name. The
      result is only logged; nothing is set. */
  function ParseEnv(payload: string): (r: Option<(string, string)>)
    ensures r.Some? <==> |Strings.Split(Strings.RemoveAll(payload, '\0'), VTab)| == 2
    ensures r.Some? ==> '\0' !in r.value.0 && '\0' !in r.value.1 && VTab !in r.value.1
    ensures r.Some? ==> |r.value.0| == 0 || r.value.0[0] != Backspace
  {
    var clean := Strings.RemoveAll(payload, '\0');
    var parts := Strings.Split(clean, VTab);
    if |parts| != 2 then None
    else
      EnvPartsClean(clean, parts);
      Some((Strings.TrimLeft(parts[0], {Backspace}), parts[1]))
  }

  /** Neither part of a NUL-free `env` payload, nor the name with its
      backspaces cut, holds a NUL. */
  lemma EnvPartsClean(clean: string, parts: seq<string>)
    requires '\0' !in clean && |parts| == 2 && Strings.Join(parts, [VTab]) == clean
    ensures '\0' !in parts[0] && '\0' !in parts[1] && '\0' !in Strings.TrimLeft(parts[0], {Backspace})
  {
    JoinHasParts(parts, VTab);
    var name := Strings.TrimLeft(parts[0], {Backspace});
    forall k | 0 <= k < |name|
      ensures name[k] != '\0'
    {
      assert name[k] == parts[0][|parts[0]| - |name| + k];
    }
  }

  /** The characters of a two-part join come from its parts. */
  lemma JoinHasParts(parts: seq<string>, sep: char)
    requires |parts| == 2
    ensures forall c :: c in parts[0] ==> c in Strings.Join(parts, [sep])
    ensures forall c :: c in parts[1] ==> c in Strings.Join(parts, [sep])
  {
    assert parts[1..] == [parts[1]];
    assert Strings.Join(parts, [sep]) == parts[0] + [sep] + parts[1];
  }

  /** The git process side: the directory for access decisions, the
      repository root, and what starting and waiting for a process report. */
  datatype Runner = Runner(
    dir: Permissions.Directory,
    repoDir: string,
    start: GitCommand.Spawn -> Option<string>,
    wait: GitCommand.Spawn -> Option<string>)

  /** The access decision the SSH server hands to `GitServer`: the engine of
      `Permissions` over the directory. */
  function EngineAccess(dir: Permissions.Directory): (string, string, seq<string>) -> Permissions.Decision {
    (repo, verb, us) => Permissions.Access(dir, repo, verb, us)
  }

  /** `repo.GitServer` with the engine's access decision, followed by the start
      of the process. */
  function Launch(users: seq<string>, payload: string, run: Runner): (r: Result<GitCommand.Spawn>)
    ensures r.Ok? <==>
      GitCommand.GitServer(GitCommandOf(payload), users, EngineAccess(run.dir), run.repoDir).Ok? &&
      run.start(GitCommand.GitServer(GitCommandOf(payload), users, EngineAccess(run.dir), run.repoDir).value).None?
    ensures r.Ok? ==> r == GitCommand.GitServer(GitCommandOf(payload), users, EngineAccess(run.dir), run.repoDir)
  {
    var p := GitCommand.GitServer(GitCommandOf(payload), users, EngineAccess(run.dir), run.repoDir);
    match p
    case Err(e) => Err(e)
    case Ok(spawn) =>
      match run.start(spawn)
      case Some(e) => Err(e)
      case None => Ok(spawn)
  }

  /** A launched process runs an allowed verb on a repository the engine grants
      one of the connection's users. */
  lemma LaunchGranted(users: seq<string>, payload: string, run: Runner)
    requires Launch(users, payload, run).Ok?
    ensures var s := Launch(users, payload, run).value;
      GitCommand.AllowedVerb(s.args[0]) && Permissions.Access(run.dir, s.repo, s.args[0], users).granted
  {
    var cmd := GitCommandOf(payload);
    var parts := Strings.SplitN2(cmd, ' ');
    assert EngineAccess(run.dir)(GitCommand.NormaliseRepo(parts[1]), parts[0], users) ==
      Permissions.Access(run.dir, GitCommand.NormaliseRepo(parts[1]), parts[0], users);
  }

  /** The `exit-status` payload as sent: the status byte first. */
  function ExitStatusAsWritten(status: byte): (r: seq<byte>)
    ensures |r| == 4 && r[0] == status && r[1..] == [0, 0, 0]
  {
    [status, 0, 0, 0]
  }

  /** A `uint32` as the SSH wire format reads it: four bytes, most significant
      first (section 5 of RFC 4251); the `exit-status` request carries one
      (section 6.10 of RFC 4254). */
  function ReadUint32(b: seq<byte>): (r: int)
    requires |b| == 4
    ensures 0 <= r < 0x1_0000_0000
  {
    ((b[0] as int * 256 + b[1] as int) * 256 + b[2] as int) * 256 + b[3] as int
  }

  /** As sent, a failed process is read by the client as status 16777216, and
      a shell that keeps the low eight bits of it sees success. */
  lemma ExitStatusMisread()
    ensures ReadUint32(ExitStatusAsWritten(1)) == 0x100_0000
    ensures ReadUint32(ExitStatusAsWritten(1)) % 256 == 0
  {
  }

  /** The payload the protocol intends: the status in network byte order. */
  function ExitStatusPayload(status: byte): (r: seq<byte>)
    ensures |r| == 4 && r[..3] == [0, 0, 0] && r[3] == status
  {
    [0, 0, 0, status]
  }

  /** The intended payload is read back as the status. */
  lemma ExitStatusRoundTrip(status: byte)
    ensures ReadUint32(ExitStatusPayload(status)) == status as int
  {
  }

  /** The answer to a launch: a refusal, or an acceptance followed by the exit
      status of the process (1 for any failure), with the payload as the
      server writes it. `Reply(ok)` stands for the call to `Request.Reply`,
      which puts nothing on the wire when the client did not ask for a reply. */
  function Answer(launched: Result<GitCommand.Spawn>, wait: GitCommand.Spawn -> Option<string>): (r: seq<ChannelAction>)
    ensures |r| == 1 || |r| == 2
    ensures r[0] == Reply(launched.Ok?)
    ensures |r| == 2 <==> launched.Ok?
    ensures |r| == 2 ==> r[1] == ExitStatus(ExitStatusAsWritten(if wait(launched.value).Some? then 1 else 0))
  {
    match launched
    case Err(_) => [Reply(false)]
    case Ok(spawn) =>
      var status: byte := if wait(spawn).Some? then 1 else 0;
      [Reply(true), ExitStatus(ExitStatusAsWritten(status))]
  }

  /** The answer to an `exec`: the answer to launching its command. */
  function Exec(users: seq<string>, payload: string, run: Runner): (r: seq<ChannelAction>)
    ensures |r| == 1 || |r| == 2
    ensures r[0] == Reply(Launch(users, payload, run).Ok?)
    ensures |r| == 2 <==> Launch(users, payload, run).Ok?
    ensures |r| == 2 ==>
      var failed := run.wait(Launch(users, payload, run).value).Some?;
      r[1] == ExitStatus(ExitStatusAsWritten(if failed then 1 else 0))
  {
    Answer(Launch(users, payload, run), run.wait)
  }

  /** `handleRequests`: requests other than `exec` are answered with nothing;
      the first `exec` is served and ends the loop; the channel is closed
      whatever happens. */
  function HandleRequests(users: seq<string>, requests: seq<SshRequest>, run: Runner): (r: seq<ChannelAction>)
    ensures |r| >= 1 && r[|r| - 1] == Close
    ensures (forall j :: 0 <= j < |requests| ==> requests[j].kind != "exec") ==> r == [Close]
    ensures |requests| > 0 && requests[0].kind == "exec" ==> r == Exec(users, requests[0].payload, run) + [Close]
    decreases |requests|
  {
    if |requests| == 0 then [Close]
    else if requests[0].kind == "exec" then Exec(users, requests[0].payload, run) + [Close]
    else
      var rest := HandleRequests(users, requests[1..], run);
      assert forall j :: 1 <= j < |requests| ==> requests[j] == requests[1..][j - 1];
      rest
  }

  /** The first `exec` decides the channel: its answer, then the close. */
  lemma {:induction false} FirstExecDecides(users: seq<string>, requests: seq<SshRequest>, k: nat, run: Runner)
    requires k < |requests| && requests[k].kind == "exec"
    requires forall j :: 0 <= j < k ==> requests[j].kind != "exec"
    ensures HandleRequests(users, requests, run) == Exec(users, requests[k].payload, run) + [Close]
    decreases k
  {
    if k > 0 {
      assert requests[0].kind != "exec";
      assert forall j :: 0 <= j < k - 1 ==> requests[1..][j] == requests[j + 1];
      FirstExecDecides(users, requests[1..], k - 1, run);
    }
  }

  /** Requests after the first `exec` are never looked at. */
  lemma {:induction false} ExecEndsChannel(users: seq<string>, before: seq<SshRequest>, exec: SshRequest,
                                           after1: seq<SshRequest>, after2: seq<SshRequest>, run: Runner)
    requires exec.kind == "exec"
    ensures HandleRequests(users, before + [exec] + after1, run) == HandleRequests(users, before + [exec] + after2, run)
    decreases |before|
  {
    if |before| == 0 {
      assert (before + [exec] + after1)[0] == exec;
      assert (before + [exec] + after2)[0] == exec;
    } else {
      assert (before + [exec] + after1)[1..] == before[1..] + [exec] + after1;
      assert (before + [exec] + after2)[1..] == before[1..] + [exec] + after2;
      ExecEndsChannel(users, before[1..], exec, after1, after2, run);
    }
  }

  /** The shape of the actions on a channel: at most one reply and one exit
      status, the exit status only after a successful reply, and its payload
      is the written form of status 0 or 1. */
  predicate WellShaped(r: seq<ChannelAction>) {
    |r| <= 3 &&
    forall i :: 0 <= i < |r| && r[i].ExitStatus? ==>
      (i == 1 && r[0] == Reply(true) &&
       (r[i].payload == ExitStatusAsWritten(0) || r[i].payload == ExitStatusAsWritten(1)))
  }

  lemma AnswerShape(launched: Result<GitCommand.Spawn>, wait: GitCommand.Spawn -> Option<string>)
    ensures WellShaped(Answer(launched, wait) + [Close])
  {
    var e := Answer(launched, wait);
    assert forall i :: 0 <= i < |e| ==> (e + [Close])[i] == e[i];
  }

  lemma ExecShape(users: seq<string>, payload: string, run: Runner)
    ensures WellShaped(Exec(users, payload, run) + [Close])
  {
    AnswerShape(Launch(users, payload, run), run.wait);
  }

  /** Every channel is well shaped. */
  lemma ChannelShape(users: seq<string>, requests: seq<SshRequest>, run: Runner)
    ensures WellShaped(HandleRequests(users, requests, run))
  {
    if exists k :: 0 <= k < |requests| && requests[k].kind == "exec" {
      var k := FirstExec(requests);
      FirstExecDecides(users, requests, k, run);
      ExecShape(users, requests[k].payload, run);
    }
  }

  /** The index of the first `exec`, when there is one. */
  function FirstExec(requests: seq<SshRequest>): (k: nat)
    requires exists k :: 0 <= k < |requests| && requests[k].kind == "exec"
    ensures k < |requests| && requests[k].kind == "exec"
    ensures forall j :: 0 <= j < k ==> requests[j].kind != "exec"
    decreases |requests|
  {
    if requests[0].kind == "exec" then 0
    else
      var k :| 0 <= k < |requests| && requests[k].kind == "exec";
      assert requests[1..][k - 1].kind == "exec";
      1 + FirstExec(requests[1..])
  }

  /** A request that is not `exec` (an `env`, well formed or not, or an unknown
      type) changes nothing. */
  lemma OtherRequestsIgnored(users: seq<string>, other: SshRequest, requests: seq<SshRequest>, run: Runner)
    requires other.kind != "exec"
    ensures HandleRequests(users, [other] + requests, run) == HandleRequests(users, requests, run)
  {
    assert ([other] + requests)[1..] == requests;
  }

  /** A command whose repository the engine does not grant to any of the
      connection's users is not launched. */
  lemma LaunchDenied(users: seq<string>, payload: string, run: Runner)
    requires var cmd := GitCommandOf(payload);
      var parts := Strings.SplitN2(cmd, ' ');
      |parts| == 2 && !Permissions.Access(run.dir, GitCommand.NormaliseRepo(parts[1]), parts[0], users).granted
    ensures Launch(users, payload, run).Err?
  {
    var parts := Strings.SplitN2(GitCommandOf(payload), ' ');
    assert EngineAccess(run.dir)(GitCommand.NormaliseRepo(parts[1]), parts[0], users) ==
      Permissions.Access(run.dir, GitCommand.NormaliseRepo(parts[1]), parts[0], users);
  }

  /** A denied user never gets a process: the reply is a refusal and no exit
      status follows. */
  lemma DeniedGetsRefusal(users: seq<string>, payload: string, run: Runner)
    requires var cmd := GitCommandOf(payload);
      var parts := Strings.SplitN2(cmd, ' ');
      |parts| == 2 && !Permissions.Access(run.dir, GitCommand.NormaliseRepo(parts[1]), parts[0], users).granted
    ensures HandleRequests(users, [SshRequest("exec", true, payload)], run) == [Reply(false), Close]
  {
    LaunchDenied(users, payload, run);
    RefusedChannel(users, payload, run);
  }

  /** An `exec` whose command is not launched is refused and the channel closed. */
  lemma RefusedChannel(users: seq<string>, payload: string, run: Runner)
    requires Launch(users, payload, run).Err?
    ensures HandleRequests(users, [SshRequest("exec", true, payload)], run) == [Reply(false), Close]
  {
    assert Exec(users, payload, run) == [Reply(false)];
  }
}
