/** Repository ids: `sanitize` and `getRepositoryId` (identical in
    cmd/gits/api/http.go and api/src/gits/api/http.go).

    `sanitize` lower-cases a name and replaces every maximal run of characters
    outside [a-z0-9-] by a single "-", as `regexp.ReplaceAllString` does with
    the pattern `[^a-z0-9-]+`.
 */
module RepoName {
  import Strings

  /** A character the pattern `[^a-z0-9-]+` leaves alone. */
  predicate Allowed(c: char) {
    'a' <= c <= 'z' || '0' <= c <= '9' || c == '-'
  }

  predicate AllAllowed(s: string) {
    forall i :: 0 <= i < |s| ==> Allowed(s[i])
  }

  predicate NoneAllowed(s: string) {
    forall i :: 0 <= i < |s| ==> !Allowed(s[i])
  }

  /** The replacement as a left-to-right scan: an allowed character is kept,
      the first character of a run of disallowed ones becomes "-", and the
      rest of the run is dropped. `inRun` says whether the character before
      `s` was a disallowed one. */
  function CollapseFrom(s: string, inRun: bool): (r: string)
    ensures |r| <= |s|
    decreases |s|
  {
    if |s| == 0 then ""
    else if Allowed(s[0]) then [s[0]] + CollapseFrom(s[1..], false)
    else if inRun then CollapseFrom(s[1..], true)
    else "-" + CollapseFrom(s[1..], true)
  }

  /** Every maximal run of disallowed characters replaced by one "-". */
  function Collapse(s: string): (r: string)
    ensures |r| <= |s|
  {
    CollapseFrom(s, false)
  }

  /** Only allowed characters survive the scan. */
  lemma {:induction false} CollapseFromAllAllowed(s: string, inRun: bool)
    ensures AllAllowed(CollapseFrom(s, inRun))
    decreases |s|
  {
    if |s| > 0 {
      CollapseFromAllAllowed(s[1..], !Allowed(s[0]));
    }
  }

  /** `sanitize`. */
  function Sanitize(name: string): (r: string)
    ensures AllAllowed(r)
    ensures |r| <= |name|
  {
    var lower := Strings.ToLower(name);
    CollapseFromAllAllowed(lower, false);
    Collapse(lower)
  }

  /** The scan keeps a string of allowed characters as it is. */
  lemma {:induction false} CollapseFromAllowed(s: string, inRun: bool)
    requires AllAllowed(s)
    ensures CollapseFrom(s, inRun) == s
    decreases |s|
  {
    if |s| > 0 {
      CollapseFromAllowed(s[1..], false);
    }
  }

  /** A name made only of allowed characters is left as it is. */
  lemma CollapseAllowed(s: string)
    requires AllAllowed(s)
    ensures Collapse(s) == s
  {
    CollapseFromAllowed(s, false);
  }

  /** The rest of a run leaves nothing. */
  lemma {:induction false} RunVanishes(d: string)
    requires NoneAllowed(d)
    ensures CollapseFrom(d, true) == ""
    decreases |d|
  {
    if |d| > 0 {
      RunVanishes(d[1..]);
    }
  }

  /** A non-empty run of disallowed characters becomes exactly one "-". */
  lemma CollapseRun(d: string)
    requires |d| > 0 && NoneAllowed(d)
    ensures Collapse(d) == "-"
  {
    RunVanishes(d[1..]);
  }

  /** Replacement never reaches across an allowed character: the result of a
      concatenation whose first part ends allowed is the concatenation of the
      results. Together with `CollapseAllowed` and `CollapseRun` this fixes
      `Collapse` on every string, run by run. */
  lemma CollapseSplitsAfterAllowed(a: string, b: string)
    requires |a| > 0 && Allowed(a[|a| - 1])
    ensures Collapse(a + b) == Collapse(a) + Collapse(b)
  {
    CollapseFromSplits(a, b, false);
  }

  /** The scan of `a + b`, where `a` ends allowed, is the scan of `a` followed
      by a fresh scan of `b`. */
  lemma {:induction false} CollapseFromSplits(a: string, b: string, inRun: bool)
    requires |a| > 0 && Allowed(a[|a| - 1])
    ensures CollapseFrom(a + b, inRun) == CollapseFrom(a, inRun) + CollapseFrom(b, false)
    decreases |a|
  {
    var s := a + b;
    assert s[0] == a[0] && s[1..] == a[1..] + b;
    var next := !Allowed(a[0]);
    if |a| == 1 {
      assert a[1..] + b == b;
      assert CollapseFrom(a[1..], next) == "";
    } else {
      CollapseFromSplits(a[1..], b, next);
    }
  }

  /** Lower-casing leaves allowed characters unchanged. */
  lemma ToLowerAllowed(s: string)
    requires AllAllowed(s)
    ensures Strings.ToLower(s) == s
  {
  }

  /** Sanitizing a sanitized name changes nothing. */
  lemma SanitizeIdempotent(name: string)
    ensures Sanitize(Sanitize(name)) == Sanitize(name)
  {
    ToLowerAllowed(Sanitize(name));
    CollapseAllowed(Sanitize(name));
  }

  /** Sanitizing is the identity exactly on names of allowed characters. */
  lemma SanitizeFixedPoints(name: string)
    ensures Sanitize(name) == name <==> AllAllowed(name)
  {
    if AllAllowed(name) {
      ToLowerAllowed(name);
      CollapseAllowed(name);
    }
  }

  /** `getRepositoryId`: "org/repo" from the sanitized organization and the
      sanitized repository name with any ".git" suffix removed. */
  function RepositoryId(org: string, repo: string): string {
    Sanitize(org) + "/" + Sanitize(Strings.TrimSuffix(repo, ".git"))
  }

  /** An id has exactly one "/", and it separates the two sanitized parts. */
  lemma RepositoryIdSplits(org: string, repo: string)
    ensures Strings.Split(RepositoryId(org, repo), '/') ==
            [Sanitize(org), Sanitize(Strings.TrimSuffix(repo, ".git"))]
  {
    var o := Sanitize(org);
    var n := Sanitize(Strings.TrimSuffix(repo, ".git"));
    assert '/' !in o && '/' !in n by {
      assert !Allowed('/');
    }
    assert Strings.Join([o, n], ['/']) == o + "/" + n;
    Strings.SplitJoin([o, n], '/');
  }

  /** Requests for "repo" and "repo.git" name the same repository. Only one
      suffix is removed, so `repo` itself must not end in ".git". */
  lemma DotGitSuffixIgnored(org: string, repo: string)
    requires !Strings.HasSuffix(repo, ".git")
    ensures RepositoryId(org, repo + ".git") == RepositoryId(org, repo)
  {
    TrimDotGit(repo);
  }

  lemma TrimDotGit(repo: string)
    ensures Strings.TrimSuffix(repo + ".git", ".git") == repo
  {
    var s := repo + ".git";
    assert s[|s| - 4..] == ".git";
    assert s[..|s| - 4] == repo;
  }

  /** An id made of already-sanitized parts is the parts joined by "/". */
  lemma RepositoryIdOfClean(org: string, repo: string)
    requires AllAllowed(org) && AllAllowed(repo) && !Strings.HasSuffix(repo, ".git")
    ensures RepositoryId(org, repo) == org + "/" + repo
  {
    SanitizeFixedPoints(org);
    SanitizeFixedPoints(repo);
  }
}
