/** The maintenance switch and the error joiner of cmd/gits/util/util.go.

    Maintenance mode is on while a configured file exists; a regular, non-empty,
    readable file also supplies the message shown to clients. The file system
    is an oracle: `stat` and `readFile` answers for a path.
 */
module Util {
  import opened Wrappers
  import Strings

  /** What `os.Stat` reports that matters here. */
  datatype FileInfo = FileInfo(regular: bool, size: int)

  /** The file system as seen through `os.Stat` and `ioutil.ReadFile`; a
      failed stat (or a nil info) is `Err`. */
  datatype FileSystem = FileSystem(stat: string -> Result<FileInfo>, readFile: string -> Result<string>)

  /** `maintenance`: whether the mode is on, and the message to show. */
  function Probe(file: string, fs: FileSystem): (r: (bool, string))
    ensures r.0 <==> file != "" && fs.stat(file).Ok?
    ensures r.1 != "" <==>
      file != "" && fs.stat(file).Ok? && fs.stat(file).value.regular && fs.stat(file).value.size > 0 &&
      fs.readFile(file).Ok? && fs.readFile(file).value != ""
    ensures r.1 != "" ==> r.1 == fs.readFile(file).value
  {
    if file == "" then (false, "")
    else match fs.stat(file)
      case Err(_) => (false, "")
      case Ok(info) =>
        var msg :=
          if info.regular && info.size > 0 then
            match fs.readFile(file)
            case Err(_) => ""
            case Ok(data) => if |data| > 0 then data else ""
          else "";
        (true, msg)
  }

  /** A message is only ever shown while the mode is on. */
  lemma MessageOnlyWhenOn(file: string, fs: FileSystem)
    ensures !Probe(file, fs).0 ==> Probe(file, fs) == (false, "")
  {
  }

  /** One call of `Maintenance`: the probe's answer, the remembered mode, and
      the line logged when the mode changed. */
  datatype MaintenanceStep = MaintenanceStep(on: bool, message: string, remembered: bool, logged: Option<string>)

  /** `Maintenance`: the probe's answer is returned unchanged; only in verbose
      mode is the remembered mode updated, with a log line on each change. */
  function Maintenance(remembered: bool, verbose: bool, probe: (bool, string)): (r: MaintenanceStep)
    ensures (r.on, r.message) == probe
    ensures r.logged.Some? <==> verbose && remembered != probe.0
    ensures r.logged.Some? ==> r.logged.value == "Maintenance mode " + (if probe.0 then "on" else "off")
    ensures !verbose ==> r.remembered == remembered
    ensures verbose ==> r.remembered == probe.0
  {
    if verbose && remembered != probe.0 then
      MaintenanceStep(probe.0, probe.1, probe.0, Some("Maintenance mode " + (if probe.0 then "on" else "off")))
    else MaintenanceStep(probe.0, probe.1, remembered, None)
  }

  /** A change is logged once: asking again with the same answer logs nothing. */
  lemma MaintenanceLogsOnce(remembered: bool, verbose: bool, probe: (bool, string))
    ensures Maintenance(Maintenance(remembered, verbose, probe).remembered, verbose, probe).logged.None?
  {
  }

  /** The messages of the errors that are present, in order. */
  function Present(maybeErrors: seq<Option<string>>): (r: seq<string>)
    ensures |r| <= |maybeErrors|
    ensures |r| == 0 <==> forall i :: 0 <= i < |maybeErrors| ==> maybeErrors[i].None?
    ensures forall m :: m in r <==> Some(m) in maybeErrors
  {
    if |maybeErrors| == 0 then []
    else
      var rest := Present(maybeErrors[1..]);
      assert forall i :: 1 <= i < |maybeErrors| ==> maybeErrors[i] == maybeErrors[1..][i - 1];
      assert forall x :: x in maybeErrors <==> x == maybeErrors[0] || x in maybeErrors[1..];
      match maybeErrors[0]
      case None => rest
      case Some(m) => [m] + rest
  }

  /** Presence distributes over concatenation, so the order is kept. */
  lemma {:induction false} PresentAppend(a: seq<Option<string>>, b: seq<Option<string>>)
    ensures Present(a + b) == Present(a) + Present(b)
    decreases |a|
  {
    if |a| == 0 {
      assert a + b == b;
    } else {
      assert (a + b)[1..] == a[1..] + b;
      assert (a + b)[0] == a[0];
      PresentAppend(a[1..], b);
    }
  }

  /** `Errors`: the present messages joined with `sep` (", " when empty), or
      "(no errors)" when there is none. */
  function Errors(sep: string, maybeErrors: seq<Option<string>>): (r: string)
    ensures (forall i :: 0 <= i < |maybeErrors| ==> maybeErrors[i].None?) ==> r == "(no errors)"
    ensures (exists i :: 0 <= i < |maybeErrors| && maybeErrors[i].Some?) ==>
      r == Strings.Join(Present(maybeErrors), if sep == "" then ", " else sep)
  {
    var errs := Present(maybeErrors);
    if |errs| == 0 then "(no errors)"
    else Strings.Join(errs, if sep == "" then ", " else sep)
  }

  /** With a one-character separator that no message contains, splitting the
      joined text recovers the messages. */
  lemma ErrorsSplit(c: char, maybeErrors: seq<Option<string>>)
    requires exists i :: 0 <= i < |maybeErrors| && maybeErrors[i].Some?
    requires forall i :: 0 <= i < |maybeErrors| && maybeErrors[i].Some? ==> c !in maybeErrors[i].value
    ensures Strings.Split(Errors([c], maybeErrors), c) == Present(maybeErrors)
  {
    var errs := Present(maybeErrors);
    forall k | 0 <= k < |errs|
      ensures c !in errs[k]
    {
      assert errs[k] in errs;
      var i :| 0 <= i < |maybeErrors| && maybeErrors[i] == Some(errs[k]);
    }
    Strings.SplitJoin(errs, c);
  }
}
