/** The command parsing of `GitServer` (api/src/gits/repo/git.go): an SSH
    `exec` payload such as "git-upload-pack '/org/stack-1.git'" becomes a
    permitted verb and a repository name, or an error, before any process is
    started.

    The access decision is a parameter (the engine of `Permissions` in the
    SSH server). Starting the process is left to the caller: the result here
    is what would be started.
 */
module GitCommand {
  import opened Wrappers
  import Strings
  import Permissions

  /** `allowedVerbs`. */
  const AllowedVerbs: seq<string> := ["git-receive-pack", "git-upload-archive", "git-upload-pack"]

  /** `allowedVerb`: a scan of the allow-list for an exact match. */
  function Listed(verb: string, list: seq<string>): (r: bool)
    ensures r <==> verb in list
  {
    if |list| == 0 then false
    else if verb == list[0] then true
    else
      assert forall x :: x in list <==> x == list[0] || x in list[1..];
      Listed(verb, list[1..])
  }

  function AllowedVerb(verb: string): (r: bool)
    ensures r <==> verb == "git-receive-pack" || verb == "git-upload-archive" || verb == "git-upload-pack"
  {
    Listed(verb, AllowedVerbs)
  }

  /** The repository part: leading quotes and slashes, trailing quotes, and one
      ".git" suffix removed. */
  function NormaliseRepo(repo: string): (r: string)
    ensures var t := Strings.TrimRight(Strings.TrimLeft(repo, {'\'', '/'}), {'\''});
      r == t || r + ".git" == t
    ensures |r| > 0 ==> r[0] != '\'' && r[0] != '/'
  {
    var t := Strings.TrimRight(Strings.TrimLeft(repo, {'\'', '/'}), {'\''});
    var r := Strings.TrimSuffix(t, ".git");
    assert |r| > 0 ==> r[0] == t[0];
    r
  }

  /** A name as git clients quote it ('name.git', '/name.git', 'name' …)
      normalises back to the name. */
  lemma {:induction false} NormaliseQuoted(lead: string, name: string, dotGit: bool, trail: string)
    requires forall i :: 0 <= i < |lead| ==> lead[i] in {'\'', '/'}
    requires forall i :: 0 <= i < |trail| ==> trail[i] == '\''
    requires |name| > 0 && name[0] !in {'\'', '/'}
    requires !Strings.HasSuffix(name, ".git") && name[|name| - 1] != '\''
    ensures NormaliseRepo(lead + name + (if dotGit then ".git" else "") + trail) == name
  {
    var body := name + (if dotGit then ".git" else "");
    var s := lead + name + (if dotGit then ".git" else "") + trail;
    assert s == lead + (body + trail);
    assert (body + trail)[0] == name[0];
    TrimLeftPrefix(lead, body + trail, {'\'', '/'});
    assert body[|body| - 1] != '\'';
    TrimRightSuffix(body, trail, {'\''});
    if dotGit {
      assert body[|body| - 4..] == ".git";
      assert body[..|body| - 4] == name;
    } else {
      assert body == name;
    }
  }

  lemma {:induction false} TrimLeftPrefix(lead: string, rest: string, cut: set<char>)
    requires forall i :: 0 <= i < |lead| ==> lead[i] in cut
    requires |rest| > 0 && rest[0] !in cut
    ensures Strings.TrimLeft(lead + rest, cut) == rest
  {
    var s := lead + rest;
    var r := Strings.TrimLeft(s, cut);
    assert r == s[|s| - |r|..];
    assert s[|lead|..] == rest;
  }

  lemma {:induction false} TrimRightSuffix(body: string, trail: string, cut: set<char>)
    requires forall i :: 0 <= i < |trail| ==> trail[i] in cut
    requires |body| > 0 && body[|body| - 1] !in cut
    ensures Strings.TrimRight(body + trail, cut) == body
  {
    var s := body + trail;
    var r := Strings.TrimRight(s, cut);
    assert s[..|body|] == body;
  }

  /** The process to start: `verb .` in the repository's directory under the
      repository root. */
  datatype Spawn = Spawn(args: seq<string>, repoDir: string, repo: string)

  /** `GitServer` up to the start of the process. An access error that comes
      with a grant is only logged. */
  function GitServer(command: string, users: seq<string>,
                     access: (string, string, seq<string>) -> Permissions.Decision,
                     repoDir: string): (r: Result<Spawn>)
    ensures ' ' !in command ==> r == Err("Unknown repo name in " + Strings.Quoted(command))
    ensures r.Ok? <==>
      ' ' in command &&
      var parts := Strings.SplitN2(command, ' ');
      AllowedVerb(parts[0]) && access(NormaliseRepo(parts[1]), parts[0], users).granted
    ensures r.Ok? ==>
      var parts := Strings.SplitN2(command, ' ');
      r.value == Spawn([parts[0], "."], repoDir, NormaliseRepo(parts[1]))
    ensures ' ' in command && !AllowedVerb(Strings.SplitN2(command, ' ')[0]) ==>
      r == Err(Strings.Quoted(Strings.SplitN2(command, ' ')[0]) + " is not allowed Git sub-command")
  {
    var parts := Strings.SplitN2(command, ' ');
    if |parts| != 2 then Err("Unknown repo name in " + Strings.Quoted(command))
    else
      var verb := parts[0];
      if !AllowedVerb(verb) then Err(Strings.Quoted(verb) + " is not allowed Git sub-command")
      else
        var repo := NormaliseRepo(parts[1]);
        var d := access(repo, verb, users);
        if !d.granted then Err(Strings.ListText(users) + " have no access to `" + repo + "`")
        else Ok(Spawn([verb, "."], repoDir, repo))
  }

  /** The verb is checked before access: a verb outside the list is refused
      whatever the access decision would be. */
  lemma VerbBeforeAccess(command: string, users: seq<string>,
                         a1: (string, string, seq<string>) -> Permissions.Decision,
                         a2: (string, string, seq<string>) -> Permissions.Decision, repoDir: string)
    requires ' ' in command && !AllowedVerb(Strings.SplitN2(command, ' ')[0])
    ensures GitServer(command, users, a1, repoDir) == GitServer(command, users, a2, repoDir)
  {
  }

  /** The command is recovered from the spawn: the verb and the space, then a
      repository part that normalises to the spawned repository. */
  lemma SpawnReflectsCommand(command: string, users: seq<string>,
                             access: (string, string, seq<string>) -> Permissions.Decision, repoDir: string)
    requires GitServer(command, users, access, repoDir).Ok?
    ensures var s := GitServer(command, users, access, repoDir).value;
      |s.args| == 2 && s.args[1] == "." && AllowedVerb(s.args[0]) &&
      Strings.HasPrefix(command, s.args[0] + " ") &&
      NormaliseRepo(command[|s.args[0]| + 1..]) == s.repo
  {
    var parts := Strings.SplitN2(command, ' ');
    assert command == parts[0] + " " + parts[1];
    assert command[..|parts[0]| + 1] == parts[0] + " ";
    assert command[|parts[0]| + 1..] == parts[1];
  }
}
