/** The repository status of api/src/gits/repo/status.go: which commit a ref
    names, and the date, author and subject of that commit.

    The two git runs (`git show-ref <ref>` and `git show -q --pretty=… <commit>`)
    are oracles: for each argument they give the text written to standard
    output and the error the run returned, if any.
 */
module RepoStatus {
  import opened Wrappers
  import Strings
  import Numerals

  /** The result of running git: its standard output and its error. */
  datatype GitRun = GitRun(output: string, err: Option<string>)

  /** `RepoStatus`; an empty field is left out of the JSON. */
  datatype Status = Status(commit: string, ref: string, date: string, author: string, subject: string)

  /** What `Status` returns: the status (possibly partial) and the error. */
  datatype StatusReply = StatusReply(status: Option<Status>, err: Option<string>)

  /** An empty ref means "master". */
  function DefaultRef(ref: string): (r: string)
    ensures r != ""
    ensures ref != "" ==> r == ref
  {
    if ref == "" then "master" else ref
  }

  /** `guessIsCommitHash`: the ref decodes as hex to exactly 20 bytes. */
  function GuessIsCommitHash(ref: string): (r: bool)
    ensures r <==> |ref| == 40 && Numerals.AllDigitsIn(ref, 16)
  {
    var expected := |ref| / 2;
    if expected != 20 then false
    else
      var decoded := Numerals.HexDecode(ref);
      decoded.Some? && |decoded.value| == 20
  }

  /** A commit id as `hex.EncodeToString` writes it is recognised. */
  lemma EncodedHashRecognised(id: seq<byte>)
    requires |id| == 20
    ensures GuessIsCommitHash(Numerals.HexEncode(id))
  {
  }

  /** One line of `git show-ref`: the hash and the ref, split at the first space. */
  function ShowRefLine(line: string): (r: Option<(string, string)>)
    ensures r.Some? <==> ' ' in line
    ensures r.Some? ==> r.value.0 + " " + r.value.1 == line && ' ' !in r.value.0
  {
    var parts := Strings.SplitN2(line, ' ');
    if |parts| != 2 then None else Some((parts[0], parts[1]))
  }

  /** The (hash, ref) pairs of the lines that contain a space, in order. */
  function ShowRefPairs(lines: seq<string>): (r: seq<(string, string)>)
    ensures |r| <= |lines|
    ensures forall p :: p in r ==> p.0 + " " + p.1 in lines && ' ' !in p.0
    ensures (forall i :: 0 <= i < |lines| ==> ' ' !in lines[i]) ==> r == []
  {
    if |lines| == 0 then []
    else
      var rest := ShowRefPairs(lines[1..]);
      assert forall x :: x in lines[1..] ==> x in lines;
      assert forall i :: 1 <= i < |lines| ==> lines[i] == lines[1..][i - 1];
      match ShowRefLine(lines[0])
      case None => rest
      case Some(p) => [p] + rest
  }

  /** Pairs are collected line by line: the pairs of two blocks of lines are the
      pairs of the first followed by those of the second. */
  lemma {:induction false} ShowRefPairsAppend(a: seq<string>, b: seq<string>)
    ensures ShowRefPairs(a + b) == ShowRefPairs(a) + ShowRefPairs(b)
    decreases |a|
  {
    if |a| == 0 {
      assert a + b == b;
    } else {
      assert (a + b)[0] == a[0];
      assert (a + b)[1..] == a[1..] + b;
      ShowRefPairsAppend(a[1..], b);
    }
  }

  /** A single line gives its split, or nothing. */
  lemma ShowRefPairsOne(line: string)
    ensures ShowRefPairs([line]) == if ' ' in line then [ShowRefLine(line).value] else []
  {
    assert [line][1..] == [];
  }

  function NotFound(ref: string): string {
    "Ref `" + ref + "` not found"
  }

  /** The pairs of the lines of an output. */
  function OutputPairs(output: string): seq<(string, string)> {
    ShowRefPairs(Strings.Split(output, '\n'))
  }

  /** The "multiple refs" error, listing the refs and then their commits. */
  function MultipleRefs(ref: string, pairs: seq<(string, string)>): (r: string)
    ensures Strings.HasPrefix(r, "Ref `" + ref + "` refer to multiple refs ")
  {
    var commits := seq(|pairs|, i requires 0 <= i < |pairs| => pairs[i].0);
    var refs := seq(|pairs|, i requires 0 <= i < |pairs| => pairs[i].1);
    var prefix := "Ref `" + ref + "` refer to multiple refs ";
    var rest := Strings.ListText(refs) + " at " + Strings.ListText(commits);
    assert (prefix + rest)[..|prefix|] == prefix;
    prefix + rest
  }

  /** `commitByRef`: the one (hash, ref) pair `git show-ref` prints. No output,
      or no line with a space, is "not found"; a failed run with output gives
      its error; more than one pair is "multiple refs". */
  function CommitByRef(ref: string, run: GitRun): (r: Result<(string, string)>)
    ensures run.output == "" ==> r == Err(NotFound(ref))
    ensures run.output != "" && run.err.Some? ==> r == Err(run.err.value)
    ensures r.Ok? <==> run.output != "" && run.err.None? && |OutputPairs(run.output)| == 1
    ensures r.Ok? ==> r.value.0 + " " + r.value.1 in Strings.Split(run.output, '\n') && ' ' !in r.value.0
    ensures run.output != "" && run.err.None? && |OutputPairs(run.output)| == 0 ==> r == Err(NotFound(ref))
    ensures run.output != "" && run.err.None? && |OutputPairs(run.output)| > 1 ==>
      r == Err(MultipleRefs(ref, OutputPairs(run.output)))
  {
    if run.output == "" then Err(NotFound(ref))
    else if run.err.Some? then Err(run.err.value)
    else
      var pairs := OutputPairs(run.output);
      if |pairs| == 0 then Err(NotFound(ref))
      else if |pairs| > 1 then Err(MultipleRefs(ref, pairs))
      else
        assert pairs[0] in pairs;
        Ok(pairs[0])
  }

  /** A line splits at its first space in one way only. */
  lemma FirstSpace(a: string, b: string, c: string, d: string)
    requires a + " " + b == c + " " + d && ' ' !in a && ' ' !in c
    ensures a == c && b == d
  {
    var s := a + " " + b;
    assert s == c + " " + d;
    assert forall i :: 0 <= i < |a| ==> s[i] == a[i] && s[i] != ' ';
    assert forall i :: 0 <= i < |c| ==> s[i] == c[i] && s[i] != ' ';
    assert s[|a|] == ' ' && s[|c|] == ' ';
    assert |a| == |c|;
    assert a == s[..|a|] == c;
    assert b == s[|a| + 1..] == d;
  }

  /** The output of `git show-ref` for one ref, one line ended by a newline,
      is parsed back into that hash and ref. */
  lemma CommitByRefOneLine(ref: string, hash: string, name: string)
    requires ' ' !in hash && '\n' !in hash && '\n' !in name
    ensures CommitByRef(ref, GitRun(hash + " " + name + "\n", None)) == Ok((hash, name))
  {
    var line := hash + " " + name;
    var out := line + "\n";
    assert '\n' !in line;
    Strings.SplitJoin([line, ""], '\n');
    assert Strings.Join([line, ""], "\n") == out;
    ShowRefPairsAppend([line], [""]);
    assert [line] + [""] == [line, ""];
    assert ' ' in line by {
      assert line[|hash|] == ' ';
    }
    ShowRefPairsOne(line);
    ShowRefPairsOne("");
    var p := ShowRefLine(line).value;
    FirstSpace(p.0, p.1, hash, name);
    assert OutputPairs(out) == [(hash, name)];
  }

  /** Two refs printed by `git show-ref` are reported as ambiguous. */
  lemma CommitByRefTwoLines(ref: string, a: string, b: string)
    requires ' ' in a && ' ' in b && '\n' !in a && '\n' !in b
    ensures CommitByRef(ref, GitRun(a + "\n" + b, None)) == Err(MultipleRefs(ref, OutputPairs(a + "\n" + b)))
  {
    Strings.SplitJoin([a, b], '\n');
    assert Strings.Join([a, b], "\n") == a + "\n" + b;
    ShowRefPairsAppend([a], [b]);
    assert [a] + [b] == [a, b];
    ShowRefPairsOne(a);
    ShowRefPairsOne(b);
  }

  /** The line at `i`, or "" past the end. */
  function LineAt(lines: seq<string>, i: nat): (r: string)
    ensures i < |lines| ==> r == lines[i]
    ensures i >= |lines| ==> r == ""
  {
    if i < |lines| then lines[i] else ""
  }

  /** The commit a ref names: the ref itself when it looks like a hash (with
      no canonical ref), else what `git show-ref` says. */
  function ResolveCommit(name: string, showRef: string -> GitRun): (r: Result<(string, string)>)
    ensures GuessIsCommitHash(name) ==> r == Ok((name, ""))
    ensures !GuessIsCommitHash(name) ==> r == CommitByRef(name, showRef(name))
  {
    if GuessIsCommitHash(name) then Ok((name, "")) else CommitByRef(name, showRef(name))
  }

  /** The status of a resolved commit from the output of `git show`. */
  function ShowStatus(commit: string, canonical: string, run: GitRun): (r: StatusReply)
    ensures r.status.Some? && r.status.value.commit == commit && r.status.value.ref == canonical
    ensures run.output == "" ==>
      r == StatusReply(Some(Status(commit, canonical, "", "", "")),
                       Some("Git show `" + commit + "` returned no output"))
    ensures run.output != "" && run.err.Some? ==> r == StatusReply(Some(Status(commit, canonical, "", "", "")), run.err)
    ensures r.err.None? <==> run.output != "" && run.err.None?
    ensures r.err.None? ==>
      var lines := Strings.Split(run.output, '\n');
      r.status.value.date == LineAt(lines, 0) && r.status.value.author == LineAt(lines, 1) &&
      r.status.value.subject == LineAt(lines, 2)
  {
    if run.output == "" then
      StatusReply(Some(Status(commit, canonical, "", "", "")), Some("Git show `" + commit + "` returned no output"))
    else if run.err.Some? then StatusReply(Some(Status(commit, canonical, "", "", "")), run.err)
    else
      var lines := Strings.Split(run.output, '\n');
      StatusReply(Some(Status(commit, canonical, LineAt(lines, 0), LineAt(lines, 1), LineAt(lines, 2))), None)
  }

  /** `Status`: the commit of the ref ("master" when empty), then its details;
      a ref that cannot be resolved gives no status at all. */
  function ReadStatus(ref: string, showRef: string -> GitRun, show: string -> GitRun): (r: StatusReply)
    ensures ResolveCommit(DefaultRef(ref), showRef).Err? ==>
      r == StatusReply(None, Some(ResolveCommit(DefaultRef(ref), showRef).error))
    ensures ResolveCommit(DefaultRef(ref), showRef).Ok? ==>
      var (commit, canonical) := ResolveCommit(DefaultRef(ref), showRef).value;
      r == ShowStatus(commit, canonical, show(commit))
  {
    match ResolveCommit(DefaultRef(ref), showRef)
    case Err(e) => StatusReply(None, Some(e))
    case Ok(pair) => ShowStatus(pair.0, pair.1, show(pair.0))
  }

  /** A ref that does not look like a hash and that `git show-ref` does not
      print is "not found", with no status. */
  lemma UnknownRefReadsNotFound(ref: string, showRef: string -> GitRun, show: string -> GitRun)
    requires !GuessIsCommitHash(DefaultRef(ref)) && showRef(DefaultRef(ref)).output == ""
    ensures ReadStatus(ref, showRef, show) == StatusReply(None, Some(NotFound(DefaultRef(ref))))
  {
  }

  /** A hash-like ref is used directly: `git show-ref` is never consulted. */
  lemma HashSkipsShowRef(ref: string, showRef1: string -> GitRun, showRef2: string -> GitRun, show: string -> GitRun)
    requires GuessIsCommitHash(DefaultRef(ref))
    ensures ReadStatus(ref, showRef1, show) == ReadStatus(ref, showRef2, show)
  {
  }

  /** The `--pretty` format writes the date, the author and the subject on three
      lines; a successful status reads them back. */
  lemma ShowFieldsRoundTrip(commit: string, canonical: string, date: string, author: string, subject: string)
    requires '\n' !in date && '\n' !in author && '\n' !in subject
    requires date + "\n" + author + "\n" + subject != ""
    ensures ShowStatus(commit, canonical, GitRun(date + "\n" + author + "\n" + subject, None)) ==
      StatusReply(Some(Status(commit, canonical, date, author, subject)), None)
  {
    var parts := [date, author, subject];
    var text := date + "\n" + author + "\n" + subject;
    assert Strings.Join(parts, "\n") == text by {
      assert parts[1..] == [author, subject];
      assert [author, subject][1..] == [subject];
      assert Strings.Join([subject], "\n") == subject;
      assert Strings.Join([author, subject], "\n") == author + "\n" + subject;
      assert Strings.Join(parts, "\n") == date + "\n" + (author + "\n" + subject);
    }
    Strings.SplitJoin(parts, '\n');
    var lines := Strings.Split(text, '\n');
    assert lines == parts;
    assert LineAt(lines, 0) == date && LineAt(lines, 1) == author && LineAt(lines, 2) == subject;
    var r := ShowStatus(commit, canonical, GitRun(text, None));
    assert r.err.None? && r.status.Some?;
  }
}
