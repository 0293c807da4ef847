/** Adding subtrees to a repository (api/src/gits/repo/subtrees.go): the
    specs are validated and given default refs, the repository is cloned, the
    target paths must be free, remotes whose subtree is split out of a
    directory are fetched once per (remote, ref) and split into numbered
    branches, then every subtree is added and the clone is pushed.

    The git binary, the file system and the temporary directory are oracles of
    an `Env`; the plan of git commands is computed exactly.
 */
module Subtrees {
  import opened Wrappers
  import Strings
  import Numerals

  /** One requested subtree: where it goes, what it is taken from, and the
      directory of the remote to split out first ("" for the whole remote). */
  datatype Spec = Spec(prefix: string, remote: string, ref: string, splitPrefix: string, squash: bool)

  /** A remote and one of its refs. */
  datatype RemoteRef = RemoteRef(remote: string, ref: string)

  function PairOf(s: Spec): RemoteRef {
    RemoteRef(s.remote, s.ref)
  }

  predicate NeedsSplit(s: Spec) {
    s.splitPrefix != ""
  }

  const DefaultRef := "master"

  /** The branch to add to: "master" when none is named. */
  function DefaultBranch(branch: string): (r: string)
    ensures r != ""
    ensures branch != "" ==> r == branch
    ensures branch == "" ==> r == DefaultRef
  {
    if branch == "" then DefaultRef else branch
  }

  /** The remote URL schemes accepted. */
  predicate ValidRemote(remote: string) {
    Strings.HasPrefix(remote, "http:") || Strings.HasPrefix(remote, "https:") ||
    Strings.HasPrefix(remote, "git:") || Strings.HasPrefix(remote, "git@")
  }

  predicate ValidSpec(s: Spec) {
    s.prefix != "" && s.remote != "" && ValidRemote(s.remote)
  }

  /** The first element on which `bad` holds, if any. */
  function FirstWhere<T>(xs: seq<T>, bad: T -> bool): (r: Option<nat>)
    ensures r.None? <==> forall i :: 0 <= i < |xs| ==> !bad(xs[i])
    ensures r.Some? ==> (r.value < |xs| && bad(xs[r.value]) &&
      forall i :: 0 <= i < r.value ==> !bad(xs[i]))
    decreases |xs|
  {
    if |xs| == 0 then None
    else if bad(xs[0]) then Some(0)
    else
      match FirstWhere(xs[1..], bad)
      case None =>
        assert forall i :: 1 <= i < |xs| ==> xs[i] == xs[1..][i - 1];
        None
      case Some(k) =>
        assert xs[1..][k] == xs[k + 1];
        assert forall i :: 1 <= i < k + 1 ==> xs[i] == xs[1..][i - 1];
        Some(k + 1)
  }

  function BoolText(b: bool): string {
    if b then "true" else "false"
  }

  /** `%+v` of a spec, whose unexported split branch is still empty. */
  function SpecText(s: Spec): string {
    "{Prefix:" + s.prefix + " Remote:" + s.remote + " Ref:" + s.ref + " SplitPrefix:" + s.splitPrefix +
    " splitBranch: Squash:" + BoolText(s.squash) + "}"
  }

  function InvalidSpecError(i: nat, s: Spec): string {
    "Invalid subtree spec at index " + Numerals.Itoa(i) + ": " + SpecText(s) + " "
  }

  /** An empty ref means "master". */
  function WithDefaultRef(s: Spec): (r: Spec)
    ensures r.ref != ""
    ensures s.ref != "" ==> r == s
    ensures r.(ref := s.ref) == s
  {
    if s.ref == "" then s.(ref := DefaultRef) else s
  }

  /** Validation and defaults: the first invalid spec is reported with its
      index; otherwise every spec gets a ref. */
  function Validate(specs: seq<Spec>): (r: Result<seq<Spec>>)
    ensures r.Ok? <==> forall i :: 0 <= i < |specs| ==> ValidSpec(specs[i])
    ensures r.Err? ==> exists i :: (0 <= i < |specs| && !ValidSpec(specs[i]) &&
      (forall j :: 0 <= j < i ==> ValidSpec(specs[j])) && r.error == InvalidSpecError(i, specs[i]))
    ensures r.Ok? ==> |r.value| == |specs| && forall i :: 0 <= i < |specs| ==> r.value[i] == WithDefaultRef(specs[i])
  {
    match FirstWhere(specs, (s: Spec) => !ValidSpec(s))
    case Some(i) => Err(InvalidSpecError(i, specs[i]))
    case None => Ok(seq(|specs|, i requires 0 <= i < |specs| => WithDefaultRef(specs[i])))
  }

  /** Validated specs are valid and have refs: validating again changes nothing. */
  lemma ValidateIdempotent(specs: seq<Spec>)
    requires Validate(specs).Ok?
    ensures Validate(Validate(specs).value) == Validate(specs)
    ensures forall i :: 0 <= i < |specs| ==> Validate(specs).value[i].ref != ""
  {
    var v := Validate(specs).value;
    assert forall i :: 0 <= i < |v| ==> ValidSpec(v[i]) && WithDefaultRef(v[i]) == v[i];
    assert Validate(v).value == v;
  }

  /** The file-system error texts that mean "absent". */
  function NoSuchFile(message: string): (r: bool)
    ensures message == "file does not exist" ==> r
    ensures !Strings.Contains(message, "no such file or directory") && message != "file does not exist" ==> !r
  {
    message == "file does not exist" || Strings.Contains(message, "no such file or directory")
  }

  /** The error text of `stat` on a missing path counts as absent. */
  lemma NoSuchFileOfStat(path: string)
    ensures NoSuchFile("stat " + path + ": no such file or directory")
  {
    var sub := "no such file or directory";
    var m := "stat " + path + ": " + sub;
    var k := |"stat " + path + ": "|;
    assert m[k..k + |sub|] == sub;
    assert Strings.IsAt(m, sub, k);
    assert m == "stat " + path + ": no such file or directory";
  }

  /** The path of a target prefix inside the clone; `dir` stands for
      `filepath.Join(clone, prefix)`, whose path cleaning is not modelled. */
  function SubtreeDir(dir: string -> string, s: Spec): string {
    dir(s.prefix)
  }

  /** The target path of a spec is free: `stat` fails with an absence error.
      `stat` gives `None` when the path exists, else the error text. */
  predicate PathFree(dir: string -> string, s: Spec, stat: string -> Option<string>) {
    var st := stat(SubtreeDir(dir, s));
    st.Some? && NoSuchFile(st.value)
  }

  function AlreadyExist(prefix: string): string {
    "Path `" + prefix + "` already exist"
  }

  function StatError(prefix: string, dir: string, message: string): string {
    "Unable to stat path `" + prefix + "` in repo clone `" + dir + "`: " + message
  }

  function PathError(dir: string -> string, s: Spec, stat: string -> Option<string>): string {
    var path := SubtreeDir(dir, s);
    match stat(path)
    case None => AlreadyExist(s.prefix)
    case Some(message) => StatError(s.prefix, path, message)
  }

  /** Every target path must be free; the first that is not is reported:
      "already exist" when it exists, the `stat` error otherwise. */
  function CheckPaths(dir: string -> string, specs: seq<Spec>, stat: string -> Option<string>): (r: Result<()>)
    ensures r.Ok? <==> forall i :: 0 <= i < |specs| ==> PathFree(dir, specs[i], stat)
    ensures r.Err? ==> exists i :: (0 <= i < |specs| && !PathFree(dir, specs[i], stat) &&
      (forall j :: 0 <= j < i ==> PathFree(dir, specs[j], stat)) && r.error == PathError(dir, specs[i], stat))
  {
    match FirstWhere(specs, (s: Spec) => !PathFree(dir, s, stat))
    case Some(i) => Err(PathError(dir, specs[i], stat))
    case None => Ok(())
  }

  /** An existing target path is refused with "already exist". */
  lemma ExistingPathRefused(dir: string -> string, specs: seq<Spec>, stat: string -> Option<string>, i: nat)
    requires i < |specs| && stat(SubtreeDir(dir, specs[i])).None?
    requires forall j :: 0 <= j < i ==> PathFree(dir, specs[j], stat)
    ensures CheckPaths(dir, specs, stat) == Err(AlreadyExist(specs[i].prefix))
  {
    var r := CheckPaths(dir, specs, stat);
    assert !PathFree(dir, specs[i], stat);
    var k :| 0 <= k < |specs| && !PathFree(dir, specs[k], stat) &&
      (forall j :: 0 <= j < k ==> PathFree(dir, specs[j], stat)) && r.error == PathError(dir, specs[k], stat);
    assert k == i;
  }

  /** No two elements are equal. */
  predicate Distinct<T(==)>(xs: seq<T>) {
    forall i, j :: 0 <= i < j < |xs| ==> xs[i] != xs[j]
  }

  lemma DistinctConcat<T>(a: seq<T>, b: seq<T>)
    requires Distinct(a) && Distinct(b)
    requires forall x :: x in a ==> x !in b
    ensures Distinct(a + b)
  {
    forall i, j | 0 <= i < j < |a + b|
      ensures (a + b)[i] != (a + b)[j]
    {
      if j >= |a| && i < |a| {
        assert (a + b)[i] in a && (a + b)[j] in b;
      }
    }
  }

  /** The elements of `xs` in order of first appearance, each once. */
  function Dedup<T(==)>(xs: seq<T>): (r: seq<T>)
    ensures forall i :: 0 <= i < |r| ==> r[i] in xs
    ensures forall i :: 0 <= i < |xs| ==> xs[i] in r
    ensures Distinct(r)
    decreases |xs|
  {
    if |xs| == 0 then []
    else
      var init := xs[..|xs| - 1];
      var x := xs[|xs| - 1];
      assert xs == init + [x];
      var d := Dedup(init);
      if x in d then d else d + [x]
  }

  /** A split subtree of the list uses this remote and ref. */
  predicate SplitPair(specs: seq<Spec>, p: RemoteRef) {
    exists i :: 0 <= i < |specs| && NeedsSplit(specs[i]) && PairOf(specs[i]) == p
  }

  /** The split pairs of a list are those of all but its last spec, and the
      last spec's when it is split. */
  lemma SplitPairSnoc(specs: seq<Spec>)
    requires |specs| > 0
    ensures var init := specs[..|specs| - 1];
      var last := specs[|specs| - 1];
      forall p :: SplitPair(specs, p) <==> SplitPair(init, p) || (NeedsSplit(last) && p == PairOf(last))
  {
    var init := specs[..|specs| - 1];
    var last := specs[|specs| - 1];
    assert forall i :: 0 <= i < |init| ==> init[i] == specs[i];
    forall p | SplitPair(specs, p)
      ensures SplitPair(init, p) || (NeedsSplit(last) && p == PairOf(last))
    {
      var i :| 0 <= i < |specs| && NeedsSplit(specs[i]) && PairOf(specs[i]) == p;
      if i < |init| {
        assert NeedsSplit(init[i]) && PairOf(init[i]) == p;
      }
    }
    forall p | SplitPair(init, p)
      ensures SplitPair(specs, p)
    {
      var i :| 0 <= i < |init| && NeedsSplit(init[i]) && PairOf(init[i]) == p;
      assert NeedsSplit(specs[i]) && PairOf(specs[i]) == p;
    }
    if NeedsSplit(last) {
      assert NeedsSplit(specs[|specs| - 1]) && PairOf(specs[|specs| - 1]) == PairOf(last);
    }
  }

  /** The remotes and refs of the split subtrees, in order, repeats included. */
  function SplitPairs(specs: seq<Spec>): (r: seq<RemoteRef>)
    ensures forall p :: p in r <==> SplitPair(specs, p)
    decreases |specs|
  {
    if |specs| == 0 then []
    else
      var init := specs[..|specs| - 1];
      var last := specs[|specs| - 1];
      SplitPairSnoc(specs);
      SplitPairs(init) + (if NeedsSplit(last) then [PairOf(last)] else [])
  }

  /** The remotes to fetch, each (remote, ref) once. */
  function SplitRemotes(specs: seq<Spec>): (r: seq<RemoteRef>)
    ensures Distinct(r)
    ensures forall p :: p in r <==> SplitPair(specs, p)
  {
    Dedup(SplitPairs(specs))
  }

  /** The order in which Go's runtime ranges over the map of remotes: any
      order of them. `visit` is the order the runtime picks; a pick that is
      not an order of the same remotes is read as the order given. */
  function Visit(remotes: seq<RemoteRef>, visit: seq<RemoteRef> -> seq<RemoteRef>): (r: seq<RemoteRef>)
    ensures Distinct(remotes) ==> Distinct(r)
    ensures forall p :: p in r <==> p in remotes
    ensures (Distinct(remotes) && Distinct(visit(remotes)) && |visit(remotes)| == |remotes| &&
             (forall p :: p in visit(remotes) <==> p in remotes)) ==> r == visit(remotes)
  {
    var v := visit(remotes);
    if Distinct(v) && |v| == |remotes| && (forall i :: 0 <= i < |v| ==> v[i] in remotes) &&
       (forall i :: 0 <= i < |remotes| ==> remotes[i] in v)
    then v else remotes
  }

  /** The key under which the written code stores a remote and ref. */
  function Key(p: RemoteRef): string {
    p.remote + "|" + p.ref
  }

  /** The map of the written code: each split subtree writes its remote and
      ref under its key, a later one replacing an earlier one. */
  function SplitRemoteMap(specs: seq<Spec>): (m: map<string, RemoteRef>)
    ensures forall k :: k in m ==> Key(m[k]) == k && SplitPair(specs, m[k])
    ensures forall p :: SplitPair(specs, p) ==> Key(p) in m
    decreases |specs|
  {
    if |specs| == 0 then map[]
    else
      var init := specs[..|specs| - 1];
      var last := specs[|specs| - 1];
      var m := SplitRemoteMap(init);
      SplitPairSnoc(specs);
      if NeedsSplit(last) then m[Key(PairOf(last)) := PairOf(last)] else m
  }

  /** The keys of a list of remotes. */
  function Keys(ps: seq<RemoteRef>): (r: seq<string>)
    ensures |r| == |ps| && forall i :: 0 <= i < |ps| ==> r[i] == Key(ps[i])
  {
    seq(|ps|, i requires 0 <= i < |ps| => Key(ps[i]))
  }

  /** The keys of the written code's map, each once, in order of first
      appearance. */
  function SplitKeys(specs: seq<Spec>): (keys: seq<string>)
    ensures Distinct(keys)
    ensures forall i :: 0 <= i < |keys| ==> keys[i] in SplitRemoteMap(specs)
    ensures forall p :: SplitPair(specs, p) ==> Key(p) in keys
  {
    var m := SplitRemoteMap(specs);
    var ps := SplitPairs(specs);
    var ks := Keys(ps);
    var keys := Dedup(ks);
    assert forall i :: 0 <= i < |keys| ==> keys[i] in m by {
      forall i | 0 <= i < |keys| ensures keys[i] in m {
        var j :| 0 <= j < |ks| && ks[j] == keys[i];
        assert ps[j] in ps;
      }
    }
    assert forall p :: SplitPair(specs, p) ==> Key(p) in keys by {
      forall p | SplitPair(specs, p) ensures Key(p) in keys {
        var j :| 0 <= j < |ps| && ps[j] == p;
        assert ks[j] == Key(p);
      }
    }
    keys
  }

  /** The remotes the written code fetches: the values of its map (visited in
      the order the keys first appear). */
  function SplitRemotesAsWritten(specs: seq<Spec>): (r: seq<RemoteRef>)
    ensures Distinct(r)
    ensures forall p :: p in r ==> SplitPair(specs, p)
  {
    var m := SplitRemoteMap(specs);
    var keys := SplitKeys(specs);
    var r := seq(|keys|, i requires 0 <= i < |keys| => m[keys[i]]);
    assert forall i :: 0 <= i < |r| ==> Key(r[i]) == keys[i];
    r
  }

  /** When no remote or ref of a split subtree contains '|', the keys cannot
      collide and the written code fetches exactly the remotes it should. */
  lemma AsWrittenWithoutBars(specs: seq<Spec>)
    requires forall i :: 0 <= i < |specs| ==> '|' !in specs[i].remote
    ensures forall p :: p in SplitRemotesAsWritten(specs) <==> SplitPair(specs, p)
  {
    var m := SplitRemoteMap(specs);
    var r := SplitRemotesAsWritten(specs);
    forall p | SplitPair(specs, p) ensures p in r {
      var i :| 0 <= i < |specs| && NeedsSplit(specs[i]) && PairOf(specs[i]) == p;
      var q := m[Key(p)];
      var k :| 0 <= k < |specs| && NeedsSplit(specs[k]) && PairOf(specs[k]) == q;
      KeyInjective(p, q);
      var keys := SplitKeys(specs);
      var t :| 0 <= t < |keys| && keys[t] == Key(p);
      assert r[t] == q;
    }
  }

  /** Keys determine the pair when the remote has no '|'. */
  lemma KeyInjective(p: RemoteRef, q: RemoteRef)
    requires '|' !in p.remote && '|' !in q.remote
    requires Key(p) == Key(q)
    ensures p == q
  {
    Strings.IndexOfAfterPrefix(p.remote, '|', p.ref);
    Strings.IndexOfAfterPrefix(q.remote, '|', q.ref);
    var s := Key(p);
    assert s == p.remote + ['|'] + p.ref;
    assert Key(q) == q.remote + ['|'] + q.ref;
    assert p.remote == s[..|p.remote|];
    assert q.remote == s[..|q.remote|];
    assert p.ref == s[|p.remote| + 1..];
    assert q.ref == s[|q.remote| + 1..];
  }

  predicate Uses(s: Spec, p: RemoteRef) {
    NeedsSplit(s) && PairOf(s) == p
  }

  /** Indices from `start` on of the split subtrees using remote and ref `p`,
      ascending. */
  function MatchingFrom(specs: seq<Spec>, p: RemoteRef, start: nat): (idx: seq<nat>)
    ensures forall j :: 0 <= j < |idx| ==> start <= idx[j] < |specs| && Uses(specs[idx[j]], p)
    ensures forall i :: start <= i < |specs| && Uses(specs[i], p) ==> i in idx
    ensures forall j, k :: 0 <= j < k < |idx| ==> idx[j] < idx[k]
    decreases |specs| - start
  {
    if start >= |specs| then []
    else
      var rest := MatchingFrom(specs, p, start + 1);
      if Uses(specs[start], p) then [start] + rest else rest
  }

  /** Indices of the split subtrees using remote and ref `p`, ascending. */
  function Matching(specs: seq<Spec>, p: RemoteRef): (idx: seq<nat>)
    ensures forall j :: 0 <= j < |idx| ==> idx[j] < |specs| && NeedsSplit(specs[idx[j]]) && PairOf(specs[idx[j]]) == p
    ensures forall i :: 0 <= i < |specs| && NeedsSplit(specs[i]) && PairOf(specs[i]) == p ==> i in idx
    ensures forall j, k :: 0 <= j < k < |idx| ==> idx[j] < idx[k]
  {
    MatchingFrom(specs, p, 0)
  }

  /** The subtrees to split, in the order the nested loops visit them: remote
      by remote, and within a remote by position. */
  function Order(specs: seq<Spec>, remotes: seq<RemoteRef>): (r: seq<nat>)
    ensures forall j :: 0 <= j < |r| ==> r[j] < |specs|
    ensures forall i :: i in r <==> (0 <= i < |specs| && NeedsSplit(specs[i]) && PairOf(specs[i]) in remotes)
    decreases |remotes|
  {
    if |remotes| == 0 then []
    else
      assert forall p :: p in remotes <==> p == remotes[0] || p in remotes[1..];
      Matching(specs, remotes[0]) + Order(specs, remotes[1..])
  }

  /** Visiting distinct remotes visits every subtree at most once. */
  lemma {:induction false} OrderDistinct(specs: seq<Spec>, remotes: seq<RemoteRef>)
    requires Distinct(remotes)
    ensures Distinct(Order(specs, remotes))
    decreases |remotes|
  {
    if |remotes| > 0 {
      var m := Matching(specs, remotes[0]);
      var tail := remotes[1..];
      var rest := Order(specs, tail);
      assert forall k :: 0 <= k < |tail| ==> tail[k] == remotes[k + 1];
      assert remotes[0] !in tail;
      OrderDistinct(specs, tail);
      assert forall x :: x in m ==> x !in rest;
      DistinctConcat(m, rest);
    }
  }

  /** The name of the n-th split branch. */
  function SplitBranchName(n: nat): string {
    "_split-" + Numerals.Itoa(n)
  }

  /** Split branches with different numbers have different names. */
  lemma SplitBranchNamesDistinct(m: nat, n: nat)
    requires m != n
    ensures SplitBranchName(m) != SplitBranchName(n)
  {
    if SplitBranchName(m) == SplitBranchName(n) {
      var prefix := "_split-";
      assert SplitBranchName(m)[|prefix|..] == Numerals.Format(m, 10);
      assert SplitBranchName(n)[|prefix|..] == Numerals.Format(n, 10);
      Numerals.FormatInjective(m, n, 10);
    }
  }

  /** The branch a spec is added from: its split branch, numbered by its
      position in the visiting order; "" when it is never split. */
  function Branch(specs: seq<Spec>, remotes: seq<RemoteRef>, i: nat): (r: string)
  {
    var o := Order(specs, remotes);
    if i in o then SplitBranchName(Strings.IndexOf(o, i)) else ""
  }

  /** A git command of the plan. Remotes are named by the number they were
      added under. */
  datatype Command =
    | Clone(branch: string, repoPath: string, target: string)
    | RemoteAdd(remote: nat, url: string)
    | Fetch(remote: nat, ref: string)
    | CheckoutNew(remote: nat, ref: string)
    | SubtreeSplit(splitPrefix: string, branch: string, squash: bool)
    | Checkout(branch: string)
    | SubtreeAdd(prefix: string, source: seq<string>, squash: bool)
    | Push

  /** The name of the k-th added remote. */
  function RemoteName(k: nat): string {
    "remote-" + Numerals.Itoa(k)
  }

  function SquashFlag(squash: bool): seq<string> {
    if squash then ["--squash"] else []
  }

  /** The command line of a command. */
  function Args(c: Command): seq<string> {
    match c
    case Clone(branch, repoPath, target) =>
      ["git", "clone", "--branch", branch, "--single-branch", "--no-tags", repoPath, target]
    case RemoteAdd(k, url) => ["git", "remote", "add", RemoteName(k), url]
    case Fetch(k, ref) => ["git", "fetch", RemoteName(k), ref + ":_" + RemoteName(k) + "/" + ref]
    case CheckoutNew(k, ref) => ["git", "checkout", "-b", "_" + RemoteName(k) + "-" + ref, "_" + RemoteName(k) + "/" + ref]
    case SubtreeSplit(splitPrefix, branch, squash) =>
      ["git", "subtree", "split", "-q", "--prefix=" + splitPrefix, "-b", branch] + SquashFlag(squash)
    case Checkout(branch) => ["git", "checkout", branch]
    case SubtreeAdd(prefix, source, squash) =>
      ["git", "subtree", "add", "--prefix=" + prefix] + source + SquashFlag(squash)
    case Push => ["git", "push"]
  }

  /** A command and the text its failure is reported with (the git error
      follows after ": "). */
  datatype Step = Step(command: Command, failure: string)

  predicate IsSplit(s: Step) {
    s.command.SubtreeSplit?
  }

  /** Adding, fetching and checking out the k-th remote. */
  function RemoteSetup(k: nat, p: RemoteRef, mask: string -> string): (r: seq<Step>)
    ensures forall j :: 0 <= j < |r| ==> !IsSplit(r[j])
  {
    [Step(RemoteAdd(k, p.remote), "Unable to add remote `" + mask(p.remote) + "`"),
     Step(Fetch(k, p.ref), "Unable to fetch `" + mask(p.remote) + "` ref `" + p.ref + "`"),
     Step(CheckoutNew(k, p.ref), "Unable to checkout `" + mask(p.remote) + "` ref `" + p.ref + "` as local branch")]
  }

  /** Splitting one subtree into a branch. */
  function SplitStep(s: Spec, branch: string, mask: string -> string): (r: Step)
    ensures IsSplit(r)
  {
    Step(SubtreeSplit(s.splitPrefix, branch, s.squash),
      "Unable to split `" + mask(s.remote) + "` ref `" + s.ref + "` prefix `" + s.splitPrefix + "` as local branch")
  }

  function SpecAt(specs: seq<Spec>, i: nat): Spec {
    if i < |specs| then specs[i] else Spec("", "", "", "", false)
  }

  /** Splitting the subtree at position `i` into the split branch numbered `n`. */
  function SplitOf(specs: seq<Spec>, name: nat -> string, mask: string -> string): (nat, nat) -> Step {
    (i: nat, n: nat) => SplitStep(SpecAt(specs, i), name(n), mask)
  }

  /** `f` of each element of `idx` and its number, numbering from `next`. */
  function Numbered<T>(idx: seq<nat>, next: nat, f: (nat, nat) -> T): (r: seq<T>)
    ensures |r| == |idx|
    decreases |idx|
  {
    if |idx| == 0 then [] else [f(idx[0], next)] + Numbered(idx[1..], next + 1, f)
  }

  /** The j-th element of a numbered run is numbered `next + j`. */
  lemma {:induction false} NumberedAt<T>(idx: seq<nat>, next: nat, f: (nat, nat) -> T)
    ensures forall j :: 0 <= j < |idx| ==> Numbered(idx, next, f)[j] == f(idx[j], next + j)
    decreases |idx|
  {
    if |idx| > 0 {
      var r := Numbered(idx, next, f);
      var tail := Numbered(idx[1..], next + 1, f);
      NumberedAt(idx[1..], next + 1, f);
      forall j | 1 <= j < |idx|
        ensures r[j] == f(idx[j], next + j)
      {
        assert r[j] == tail[j - 1];
        assert idx[1..][j - 1] == idx[j];
      }
    }
  }

  /** When `keep` holds of every value of `f`, it holds of every element of a
      run numbered by `f`. */
  lemma NumberedKeep<T>(idx: seq<nat>, next: nat, f: (nat, nat) -> T, keep: T -> bool)
    requires forall i: nat, n: nat :: keep(f(i, n))
    ensures forall j :: 0 <= j < |idx| ==> keep(Numbered(idx, next, f)[j])
  {
    NumberedAt(idx, next, f);
  }

  /** Each index of `idx` occurs in the run with its number. */
  lemma NumberedMember<T>(idx: seq<nat>, next: nat, f: (nat, nat) -> T, j: nat)
    requires j < |idx|
    ensures f(idx[j], next + j) in Numbered(idx, next, f)
  {
    NumberedAt(idx, next, f);
    assert Numbered(idx, next, f)[j] == f(idx[j], next + j);
  }

  /** Numbering two runs one after the other numbers their concatenation. */
  lemma NumberedConcat<T>(a: seq<nat>, b: seq<nat>, next: nat, f: (nat, nat) -> T)
    ensures Numbered(a, next, f) + Numbered(b, next + |a|, f) == Numbered(a + b, next, f)
  {
    var l := Numbered(a, next, f) + Numbered(b, next + |a|, f);
    var r := Numbered(a + b, next, f);
    NumberedAt(a, next, f);
    NumberedAt(b, next + |a|, f);
    NumberedAt(a + b, next, f);
    forall j | 0 <= j < |r|
      ensures l[j] == r[j]
    {
      if j < |a| {
        assert (a + b)[j] == a[j];
      } else {
        assert (a + b)[j] == b[j - |a|];
        assert next + |a| + (j - |a|) == next + j;
      }
    }
  }

  /** The elements of `xs` that `keep` selects, in order. */
  function Filter<T>(xs: seq<T>, keep: T -> bool): (r: seq<T>)
    ensures |r| <= |xs|
    decreases |xs|
  {
    if |xs| == 0 then []
    else (if keep(xs[0]) then [xs[0]] else []) + Filter(xs[1..], keep)
  }

  lemma {:induction false} FilterAppend<T>(a: seq<T>, b: seq<T>, keep: T -> bool)
    ensures Filter(a + b, keep) == Filter(a, keep) + Filter(b, keep)
    decreases |a|
  {
    if |a| == 0 {
      assert a + b == b;
    } else {
      var head := if keep(a[0]) then [a[0]] else [];
      assert (a + b)[0] == a[0];
      assert (a + b)[1..] == a[1..] + b;
      calc {
        Filter(a + b, keep);
        head + Filter(a[1..] + b, keep);
        { FilterAppend(a[1..], b, keep); }
        head + (Filter(a[1..], keep) + Filter(b, keep));
        (head + Filter(a[1..], keep)) + Filter(b, keep);
        Filter(a, keep) + Filter(b, keep);
      }
    }
  }

  lemma {:induction false} FilterNone<T>(xs: seq<T>, keep: T -> bool)
    requires forall j :: 0 <= j < |xs| ==> !keep(xs[j])
    ensures Filter(xs, keep) == []
    decreases |xs|
  {
    if |xs| > 0 {
      FilterNone(xs[1..], keep);
    }
  }

  lemma {:induction false} FilterAll<T>(xs: seq<T>, keep: T -> bool)
    requires forall j :: 0 <= j < |xs| ==> keep(xs[j])
    ensures Filter(xs, keep) == xs
    decreases |xs|
  {
    if |xs| > 0 {
      FilterAll(xs[1..], keep);
      assert xs == [xs[0]] + xs[1..];
    }
  }

  /** A phase over `remotes`: for each, its setup (numbered from `k`), then `f`
      of each index of its group, with one counter over all groups starting
      at `next`. */
  function Phase<R, T>(remotes: seq<R>, k: nat, next: nat, group: R -> seq<nat>, setup: (nat, R) -> seq<T>, f: (nat, nat) -> T): seq<T>
    decreases |remotes|
  {
    if |remotes| == 0 then []
    else
      var idx := group(remotes[0]);
      setup(k, remotes[0]) + Numbered(idx, next, f) + Phase(remotes[1..], k + 1, next + |idx|, group, setup, f)
  }

  /** The groups of `remotes`, one after the other. */
  function Grouped<R>(remotes: seq<R>, group: R -> seq<nat>): seq<nat>
    decreases |remotes|
  {
    if |remotes| == 0 then [] else group(remotes[0]) + Grouped(remotes[1..], group)
  }

  /** When `keep` selects nothing of any setup, it selects from a phase what it
      selects from the whole numbered run of its groups. */
  lemma {:induction false} PhaseFilter<R, T>(remotes: seq<R>, k: nat, next: nat, group: R -> seq<nat>, setup: (nat, R) -> seq<T>, f: (nat, nat) -> T, keep: T -> bool)
    requires forall n: nat, p: R, j :: 0 <= j < |setup(n, p)| ==> !keep(setup(n, p)[j])
    ensures Filter(Phase(remotes, k, next, group, setup, f), keep) == Filter(Numbered(Grouped(remotes, group), next, f), keep)
    decreases |remotes|
  {
    if |remotes| > 0 {
      var p := remotes[0];
      var idx := group(p);
      var s := setup(k, p);
      var run := Numbered(idx, next, f);
      var tail := Phase(remotes[1..], k + 1, next + |idx|, group, setup, f);
      var rest := Grouped(remotes[1..], group);
      var later := Numbered(rest, next + |idx|, f);
      assert Phase(remotes, k, next, group, setup, f) == s + run + tail;
      assert Grouped(remotes, group) == idx + rest;
      FilterAppend(s + run, tail, keep);
      FilterAppend(s, run, keep);
      FilterNone(s, keep);
      PhaseFilter(remotes[1..], k + 1, next + |idx|, group, setup, f, keep);
      FilterAppend(run, later, keep);
      NumberedConcat(idx, rest, next, f);
    }
  }

  function SetupOf(mask: string -> string): (nat, RemoteRef) -> seq<Step> {
    (k: nat, p: RemoteRef) => RemoteSetup(k, p, mask)
  }

  function MatchingOf(specs: seq<Spec>): RemoteRef -> seq<nat> {
    (p: RemoteRef) => Matching(specs, p)
  }

  /** The fetch-and-split phase: for each remote in turn its setup, then the
      split of each subtree that uses it, with one counter over all splits
      naming the split branches. */
  function SplitPhase(specs: seq<Spec>, remotes: seq<RemoteRef>, mask: string -> string): seq<Step> {
    Phase(remotes, 0, 0, MatchingOf(specs), SetupOf(mask), SplitOf(specs, SplitBranchName, mask))
  }

  /** Visiting the remotes' groups in turn is the visiting order. */
  lemma {:induction false} OrderGrouped(specs: seq<Spec>, remotes: seq<RemoteRef>)
    ensures Grouped(remotes, MatchingOf(specs)) == Order(specs, remotes)
    decreases |remotes|
  {
    if |remotes| > 0 {
      OrderGrouped(specs, remotes[1..]);
    }
  }

  /** The split steps of the phase split the subtrees in visiting order into
      consecutively numbered branches. */
  lemma SplitPhaseSplits(specs: seq<Spec>, remotes: seq<RemoteRef>, mask: string -> string)
    ensures Filter(SplitPhase(specs, remotes, mask), IsSplit) == Numbered(Order(specs, remotes), 0, SplitOf(specs, SplitBranchName, mask))
  {
    var split := SplitOf(specs, SplitBranchName, mask);
    SetupNoSplits(mask);
    PhaseFilter(remotes, 0, 0, MatchingOf(specs), SetupOf(mask), split, IsSplit);
    OrderGrouped(specs, remotes);
    SplitRunSplits(specs, Order(specs, remotes), mask);
  }

  /** No step of a remote's setup is a split. */
  lemma SetupNoSplits(mask: string -> string)
    ensures forall n: nat, p: RemoteRef, j :: 0 <= j < |SetupOf(mask)(n, p)| ==> !IsSplit(SetupOf(mask)(n, p)[j])
  {
    forall n: nat, p: RemoteRef, j | 0 <= j < |SetupOf(mask)(n, p)|
      ensures !IsSplit(SetupOf(mask)(n, p)[j])
    {
      assert SetupOf(mask)(n, p) == RemoteSetup(n, p, mask);
    }
  }

  /** Every step of a numbered run of splits is a split. */
  lemma SplitRunSplits(specs: seq<Spec>, o: seq<nat>, mask: string -> string)
    ensures Filter(Numbered(o, 0, SplitOf(specs, SplitBranchName, mask)), IsSplit) == Numbered(o, 0, SplitOf(specs, SplitBranchName, mask))
  {
    var split := SplitOf(specs, SplitBranchName, mask);
    forall i: nat, n: nat
      ensures IsSplit(split(i, n))
    {
      assert split(i, n) == SplitStep(SpecAt(specs, i), SplitBranchName(n), mask);
    }
    NumberedKeep(o, 0, split, IsSplit);
    FilterAll(Numbered(o, 0, split), IsSplit);
  }

  /** Adding one subtree: from its remote and ref, or from its split branch. */
  function AddStep(s: Spec, branch: string, mask: string -> string): Step {
    var source := if NeedsSplit(s) then [branch] else [s.remote, s.ref];
    var detail := if NeedsSplit(s) then " prefix `" + s.splitPrefix + "`" else "";
    Step(SubtreeAdd(s.prefix, source, s.squash),
      "Unable to add subtree `" + mask(s.remote) + "` ref `" + s.ref + "`" + detail)
  }

  /** `subtree add` names the remote and ref, or the split branch alone, and
      ends with `--squash` exactly when squashing. */
  lemma AddCommandLine(s: Spec, branch: string, mask: string -> string)
    ensures var a := Args(AddStep(s, branch, mask).command);
      a[..4] == ["git", "subtree", "add", "--prefix=" + s.prefix] &&
      a[4..] == (if NeedsSplit(s) then [branch] else [s.remote, s.ref]) + (if s.squash then ["--squash"] else [])
  {
  }

  /** The add phase: each subtree in the order given. */
  function AddPhase(specs: seq<Spec>, remotes: seq<RemoteRef>, mask: string -> string): (r: seq<Step>)
    ensures |r| == |specs|
  {
    seq(|specs|, i requires 0 <= i < |specs| => AddStep(specs[i], Branch(specs, remotes, i), mask))
  }

  /** The whole plan after the clone: fetch and split, return to the branch
      when anything was fetched, add, push. */
  function Plan(clone: string, branch: string, specs: seq<Spec>, remotes: seq<RemoteRef>, mask: string -> string): seq<Step> {
    SplitPhase(specs, remotes, mask) +
    (if |remotes| > 0 then [Step(Checkout(branch), "Unable to checkout `" + branch + "`")] else []) +
    AddPhase(specs, remotes, mask) +
    [Step(Push, "Unable to push repo clone `" + clone + "`")]
  }

  /** The plan starts with the fetch-and-split phase, then checks out the
      branch exactly when some remote was fetched, and ends with the push. */
  lemma PlanShape(clone: string, branch: string, specs: seq<Spec>, remotes: seq<RemoteRef>, mask: string -> string)
    ensures |Plan(clone, branch, specs, remotes, mask)| ==
      |SplitPhase(specs, remotes, mask)| + (if |remotes| > 0 then 1 else 0) + |specs| + 1
    ensures Plan(clone, branch, specs, remotes, mask)[..|SplitPhase(specs, remotes, mask)|] == SplitPhase(specs, remotes, mask)
    ensures |remotes| > 0 ==>
      Plan(clone, branch, specs, remotes, mask)[|SplitPhase(specs, remotes, mask)|].command == Checkout(branch)
    ensures Plan(clone, branch, specs, remotes, mask)[|Plan(clone, branch, specs, remotes, mask)| - 1].command == Push
  {
    var back := PlanBack(branch, remotes);
    PlanParts(clone, branch, specs, remotes, mask);
    Concat4(SplitPhase(specs, remotes, mask), back, AddPhase(specs, remotes, mask), PushStep(clone));
  }

  /** Between the checkout and the push, each subtree is added in the order
      given. */
  lemma PlanAdds(clone: string, branch: string, specs: seq<Spec>, remotes: seq<RemoteRef>, mask: string -> string, i: nat)
    requires i < |specs|
    ensures var k := |SplitPhase(specs, remotes, mask)| + (if |remotes| > 0 then 1 else 0) + i;
      k < |Plan(clone, branch, specs, remotes, mask)| &&
      Plan(clone, branch, specs, remotes, mask)[k] == AddStep(specs[i], Branch(specs, remotes, i), mask)
  {
    var back := PlanBack(branch, remotes);
    assert |back| == if |remotes| > 0 then 1 else 0;
    PlanParts(clone, branch, specs, remotes, mask);
    AddPhaseAt(specs, remotes, mask, i);
    ThirdPartAt(SplitPhase(specs, remotes, mask), back, AddPhase(specs, remotes, mask), PushStep(clone), i);
  }

  lemma ThirdPartAt<T>(a: seq<T>, b: seq<T>, c: seq<T>, d: T, i: nat)
    requires i < |c|
    ensures |a| + |b| + i < |a + b + c + [d]|
    ensures (a + b + c + [d])[|a| + |b| + i] == c[i]
  {
  }

  lemma AddPhaseAt(specs: seq<Spec>, remotes: seq<RemoteRef>, mask: string -> string, i: nat)
    requires i < |specs|
    ensures |AddPhase(specs, remotes, mask)| == |specs|
    ensures AddPhase(specs, remotes, mask)[i] == AddStep(specs[i], Branch(specs, remotes, i), mask)
  {
  }

  function PlanBack(branch: string, remotes: seq<RemoteRef>): seq<Step> {
    if |remotes| > 0 then [Step(Checkout(branch), "Unable to checkout `" + branch + "`")] else []
  }

  function PushStep(clone: string): Step {
    Step(Push, "Unable to push repo clone `" + clone + "`")
  }

  lemma PlanParts(clone: string, branch: string, specs: seq<Spec>, remotes: seq<RemoteRef>, mask: string -> string)
    ensures Plan(clone, branch, specs, remotes, mask) ==
      SplitPhase(specs, remotes, mask) + PlanBack(branch, remotes) + AddPhase(specs, remotes, mask) + [PushStep(clone)]
  {
  }

  lemma Concat4<T>(a: seq<T>, b: seq<T>, c: seq<T>, d: T)
    ensures var p := a + b + c + [d];
      |p| == |a| + |b| + |c| + 1 && p[..|a|] == a &&
      (|b| > 0 ==> p[|a|] == b[0]) &&
      (forall i :: 0 <= i < |c| ==> p[|a| + |b| + i] == c[i]) &&
      p[|p| - 1] == d
  {
  }

  /** The split steps of the plan, in order. */
  function PlannedSplits(specs: seq<Spec>, remotes: seq<RemoteRef>, mask: string -> string): seq<Step> {
    Filter(SplitPhase(specs, remotes, mask), IsSplit)
  }

  /** A visited subtree's split, into the branch it is later added from, is in
      the numbered run of splits. */
  lemma BranchNumbered(specs: seq<Spec>, remotes: seq<RemoteRef>, mask: string -> string, i: nat)
    requires i in Order(specs, remotes)
    ensures Branch(specs, remotes, i) != ""
    ensures SplitStep(specs[i], Branch(specs, remotes, i), mask) in
      Numbered(Order(specs, remotes), 0, SplitOf(specs, SplitBranchName, mask))
  {
    var o := Order(specs, remotes);
    var split := SplitOf(specs, SplitBranchName, mask);
    var p := Strings.IndexOf(o, i);
    NumberedMember(o, 0, split, p);
    assert split(o[p], 0 + p) == SplitStep(specs[i], SplitBranchName(p), mask);
  }

  /** A visited subtree is split into the branch it is later added from. */
  lemma BranchSplit(specs: seq<Spec>, remotes: seq<RemoteRef>, mask: string -> string, i: nat)
    requires i in Order(specs, remotes)
    ensures Branch(specs, remotes, i) != ""
    ensures SplitStep(specs[i], Branch(specs, remotes, i), mask) in PlannedSplits(specs, remotes, mask)
  {
    SplitPhaseSplits(specs, remotes, mask);
    BranchNumbered(specs, remotes, mask, i);
  }

  /** Different visited subtrees get different branches. */
  lemma BranchesDistinct(specs: seq<Spec>, remotes: seq<RemoteRef>, i: nat, j: nat)
    requires i != j && i in Order(specs, remotes) && j in Order(specs, remotes)
    ensures Branch(specs, remotes, i) != Branch(specs, remotes, j)
  {
    var o := Order(specs, remotes);
    SplitBranchNamesDistinct(Strings.IndexOf(o, i), Strings.IndexOf(o, j));
  }

  /** With the remotes deduplicated by pair, every split subtree is visited. */
  lemma SplitRemotesVisitAll(specs: seq<Spec>, i: nat)
    requires i < |specs| && NeedsSplit(specs[i])
    ensures i in Order(specs, SplitRemotes(specs))
  {
    assert SplitPair(specs, PairOf(specs[i]));
  }

  /** In whatever order the deduplicated remotes are visited, every split
      subtree is visited. */
  lemma VisitedInAnyOrder(specs: seq<Spec>, visit: seq<RemoteRef> -> seq<RemoteRef>, i: nat)
    requires i < |specs| && NeedsSplit(specs[i])
    ensures i in Order(specs, Visit(SplitRemotes(specs), visit))
  {
    assert SplitPair(specs, PairOf(specs[i]));
  }

  /** With the remotes deduplicated by pair and visited in any order, every
      split subtree is split into
      its own branch before it is added from that branch, and no two split
      subtrees share a branch. */
  lemma PlanSplitsBeforeAdding(specs: seq<Spec>, visit: seq<RemoteRef> -> seq<RemoteRef>, mask: string -> string)
    ensures var remotes := Visit(SplitRemotes(specs), visit);
      forall i :: 0 <= i < |specs| && NeedsSplit(specs[i]) ==>
        Branch(specs, remotes, i) != "" &&
        SplitStep(specs[i], Branch(specs, remotes, i), mask) in PlannedSplits(specs, remotes, mask) &&
        AddPhase(specs, remotes, mask)[i] == AddStep(specs[i], Branch(specs, remotes, i), mask)
    ensures var remotes := Visit(SplitRemotes(specs), visit);
      forall i, j :: 0 <= i < j < |specs| && NeedsSplit(specs[i]) && NeedsSplit(specs[j]) ==>
        Branch(specs, remotes, i) != Branch(specs, remotes, j)
  {
    var remotes := Visit(SplitRemotes(specs), visit);
    forall i | 0 <= i < |specs| && NeedsSplit(specs[i])
      ensures Branch(specs, remotes, i) != ""
      ensures SplitStep(specs[i], Branch(specs, remotes, i), mask) in PlannedSplits(specs, remotes, mask)
    {
      VisitedInAnyOrder(specs, visit, i);
      BranchSplit(specs, remotes, mask, i);
    }
    forall i, j | 0 <= i < j < |specs| && NeedsSplit(specs[i]) && NeedsSplit(specs[j])
      ensures Branch(specs, remotes, i) != Branch(specs, remotes, j)
    {
      VisitedInAnyOrder(specs, visit, i);
      VisitedInAnyOrder(specs, visit, j);
      BranchesDistinct(specs, remotes, i, j);
    }
  }

  /** Two split subtrees whose remote and ref differ but whose keys collide. */
  const CollidingSpecs := [Spec("lib", "https://h/x|y", "z", "src", false), Spec("app", "https://h/x", "y|z", "src", false)]
  const FirstPair := RemoteRef("https://h/x|y", "z")
  const SecondPair := RemoteRef("https://h/x", "y|z")

  lemma CollidingMap()
    ensures Key(FirstPair) == Key(SecondPair) && FirstPair != SecondPair
    ensures SplitRemoteMap(CollidingSpecs) == map[Key(FirstPair) := SecondPair]
  {
    var specs := CollidingSpecs;
    assert specs[..1][..0] == [];
    assert SplitRemoteMap(specs[..1]) == map[Key(FirstPair) := FirstPair];
  }

  lemma CollidingKeys()
    ensures SplitKeys(CollidingSpecs) == [Key(FirstPair)]
  {
    CollidingMap();
    var specs := CollidingSpecs;
    assert specs[..1][..0] == [];
    assert SplitPairs(specs[..1]) == [FirstPair];
    assert SplitPairs(specs) == [FirstPair, SecondPair];
    var ks := Keys([FirstPair, SecondPair]);
    assert ks == [Key(FirstPair), Key(FirstPair)];
    assert ks[..1] == [Key(FirstPair)];
    assert ks[..1][..0] == [];
    assert Dedup(ks[..1]) == [Key(FirstPair)];
  }

  /** The written code fetches only the later of the two pairs. */
  lemma CollidingAsWritten()
    ensures SplitRemotesAsWritten(CollidingSpecs) == [SecondPair]
  {
    CollidingMap();
    CollidingKeys();
  }

  /** With colliding keys the earlier subtree is never split and is added
      from an empty branch name; deduplicating by pair splits it. */
  lemma KeyCollisionLosesSplit()
    ensures Branch(CollidingSpecs, SplitRemotesAsWritten(CollidingSpecs), 0) == ""
    ensures AddStep(CollidingSpecs[0], Branch(CollidingSpecs, SplitRemotesAsWritten(CollidingSpecs), 0), (u: string) => u).command ==
      SubtreeAdd("lib", [""], false)
    ensures Branch(CollidingSpecs, SplitRemotes(CollidingSpecs), 0) != ""
  {
    CollidingMap();
    CollidingAsWritten();
    assert PairOf(CollidingSpecs[0]) == FirstPair;
    assert 0 !in Order(CollidingSpecs, [SecondPair]);
    SplitRemotesVisitAll(CollidingSpecs, 0);
  }

  /** The outside world of `AddSubtrees`: the repository root, the temporary
      directory, the outcome of each git command line (an error text or
      none), `stat` on a path, the credential masking of remote URLs,
      `filepath.Join` of a directory and a relative path, and the order in
      which the runtime ranges over the map of remotes. */
  datatype Env = Env(
    repoDir: string,
    tempDir: Result<string>,
    run: seq<string> -> Option<string>,
    stat: string -> Option<string>,
    mask: string -> string,
    join: (string, string) -> string,
    visit: seq<RemoteRef> -> seq<RemoteRef>)

  /** The paths of target prefixes inside the clone. */
  function InClone(env: Env, clone: string): string -> string {
    (prefix: string) => env.join(clone, prefix)
  }

  predicate Succeeds(run: seq<string> -> Option<string>, s: Step) {
    run(Args(s.command)).None?
  }

  /** Running steps in order, stopping at the first failure. */
  function Execute(steps: seq<Step>, run: seq<string> -> Option<string>): (r: Result<()>)
    ensures r.Ok? <==> forall i :: 0 <= i < |steps| ==> Succeeds(run, steps[i])
    ensures r.Err? ==> exists i :: (0 <= i < |steps| && !Succeeds(run, steps[i]) &&
      (forall j :: 0 <= j < i ==> Succeeds(run, steps[j])) &&
      r.error == steps[i].failure + ": " + run(Args(steps[i].command)).value)
  {
    match FirstWhere(steps, (s: Step) => !Succeeds(run, s))
    case None => Ok(())
    case Some(i) => Err(steps[i].failure + ": " + run(Args(steps[i].command)).value)
  }

  function TempDirError(message: string): string {
    "Unable to create temporary directory: " + message
  }

  function CloneStep(repoId: string, source: string, clone: string, branch: string): Step {
    Step(Clone(branch, source, clone), "Unable to clone `" + repoId + "` into `" + clone + "`")
  }

  /** Everything `AddSubtrees` needs to go right, stated without order: the
      specs are valid, the temporary directory exists, the clone succeeds,
      every target path is free and every planned step succeeds. */
  predicate Completes(env: Env, repoId: string, branch: string, specs: seq<Spec>) {
    Validate(specs).Ok? && env.tempDir.Ok? &&
    Succeeds(env.run, CloneStep(repoId, env.join(env.repoDir, repoId), env.tempDir.value, DefaultBranch(branch))) &&
    (forall i :: 0 <= i < |specs| ==> PathFree(InClone(env, env.tempDir.value), Validate(specs).value[i], env.stat)) &&
    var specs' := Validate(specs).value;
    forall s :: s in Plan(env.tempDir.value, DefaultBranch(branch), specs', Visit(SplitRemotes(specs'), env.visit), env.mask) ==>
      Succeeds(env.run, s)
  }

  /** `AddSubtrees`: validation before anything else, then the temporary
      clone, the free-path check, and the plan. */
  function AddSubtrees(env: Env, repoId: string, branch: string, specs: seq<Spec>): (r: Result<()>)
    ensures r.Ok? <==> Completes(env, repoId, branch, specs)
    ensures Validate(specs).Err? ==> r == Err(Validate(specs).error)
    ensures Validate(specs).Ok? && env.tempDir.Err? ==> r == Err(TempDirError(env.tempDir.error))
    ensures r.Ok? ==> Succeeds(env.run, CloneStep(repoId, env.join(env.repoDir, repoId), env.tempDir.value, DefaultBranch(branch)))
    ensures r.Ok? ==> (forall i :: 0 <= i < |specs| ==> ValidSpec(specs[i])) && env.tempDir.Ok?
    ensures r.Ok? ==> forall i :: 0 <= i < |specs| ==>
      PathFree(InClone(env, env.tempDir.value), Validate(specs).value[i], env.stat)
    ensures r.Ok? ==> var specs' := Validate(specs).value;
      forall s :: s in Plan(env.tempDir.value, DefaultBranch(branch), specs', Visit(SplitRemotes(specs'), env.visit), env.mask) ==>
        Succeeds(env.run, s)
  {
    var specs :- Validate(specs);
    var clone :- if env.tempDir.Err? then Err(TempDirError(env.tempDir.error)) else Ok(env.tempDir.value);
    var branch := DefaultBranch(branch);
    var cloned :- Execute([CloneStep(repoId, env.join(env.repoDir, repoId), clone, branch)], env.run);
    var free :- CheckPaths(InClone(env, clone), specs, env.stat);
    Execute(Plan(clone, branch, specs, Visit(SplitRemotes(specs), env.visit), env.mask), env.run)
  }

  /** An invalid spec is reported whatever the environment: nothing is run. */
  lemma InvalidSpecRunsNothing(env1: Env, env2: Env, repoId: string, branch: string, specs: seq<Spec>)
    requires exists i :: 0 <= i < |specs| && !ValidSpec(specs[i])
    ensures AddSubtrees(env1, repoId, branch, specs) == AddSubtrees(env2, repoId, branch, specs)
    ensures AddSubtrees(env1, repoId, branch, specs).Err?
  {
  }
}
