/** The capturing response writer of cmd/gits/api/response_wrapper.go.

    The wrapper forwards every call to the real writer and remembers the last
    status, a snapshot of the headers as they stood at the first `WriteHeader`
    or `Write`, and, when asked to, the bytes that were written successfully.
    The headers of the real writer are modelled as a map from name to value,
    and the error the real writer returns for each write is part of the call.
 */
module ResponseWrapper {
  import opened Wrappers
  import opened Responses

  /** A call made on the wrapper; `err` is what the real writer returns for it. */
  datatype Call =
    | CallSetHeader(name: string, value: string)
    | CallWriteHeader(status: int)
    | CallWrite(data: string, err: Option<string>)

  /** `CapturedResponse`: `header` is `None` until the snapshot is taken,
      `buffer` is `None` unless the body is captured. */
  datatype Captured = Captured(status: int, header: Option<map<string, string>>, buffer: Option<string>)

  /** `NewCapturingResponseWriter`. */
  function NewCapturing(captureBody: bool): (r: Captured)
    ensures r.status == StatusOK && r.header.None?
    ensures r.buffer.Some? <==> captureBody
    ensures captureBody ==> r.buffer == Some("")
  {
    Captured(StatusOK, None, if captureBody then Some("") else None)
  }

  /** `copyHeaders`: takes the snapshot once, never replacing it. */
  function CopyHeaders(c: Captured, live: map<string, string>): (r: Captured)
    ensures r.header == (if c.header.Some? then c.header else Some(live))
    ensures r.status == c.status && r.buffer == c.buffer
  {
    if c.header.Some? then c else c.(header := Some(live))
  }

  /** One call: the new captured state, the new live headers, and the event
      forwarded to the real writer. */
  function Step(c: Captured, live: map<string, string>, call: Call): (r: (Captured, map<string, string>, Event))
    ensures call.CallWriteHeader? ==> r.0.status == call.status && r.2 == WriteHeader(call.status)
    ensures call.CallWrite? ==> r.0.status == c.status && r.2 == Write(call.data)
    ensures call.CallWrite? ==>
      r.0.buffer == (if call.err.None? && c.buffer.Some? then Some(c.buffer.value + call.data) else c.buffer)
    ensures !call.CallWrite? ==> r.0.buffer == c.buffer
    ensures call.CallSetHeader? ==> r.0 == c && r.1 == live[call.name := call.value]
    ensures !call.CallSetHeader? ==> r.1 == live && r.0.header == CopyHeaders(c, live).header
  {
    match call
    case CallSetHeader(n, v) => (c, live[n := v], SetHeader(n, v))
    case CallWriteHeader(s) => (CopyHeaders(c, live).(status := s), live, WriteHeader(s))
    case CallWrite(data, err) =>
      var d := CopyHeaders(c, live);
      (if err.None? && d.buffer.Some? then d.(buffer := Some(d.buffer.value + data)) else d, live, Write(data))
  }

  /** A sequence of calls: the captured state and the events forwarded. */
  function Replay(c: Captured, live: map<string, string>, calls: seq<Call>): (r: (Captured, seq<Event>))
    ensures |r.1| == |calls|
    decreases |calls|
  {
    if |calls| == 0 then (c, [])
    else
      var s := Step(c, live, calls[0]);
      var rest := Replay(s.0, s.1, calls[1..]);
      (rest.0, [s.2] + rest.1)
  }

  /** The event a call forwards. */
  function Forwarded(call: Call): Event {
    match call
    case CallSetHeader(n, v) => SetHeader(n, v)
    case CallWriteHeader(s) => WriteHeader(s)
    case CallWrite(data, _) => Write(data)
  }

  /** The wrapper is transparent: the real writer receives exactly the calls. */
  lemma {:induction false} ReplayForwards(c: Captured, live: map<string, string>, calls: seq<Call>)
    ensures forall i :: 0 <= i < |calls| ==> Replay(c, live, calls).1[i] == Forwarded(calls[i])
    decreases |calls|
  {
    if |calls| > 0 {
      var s := Step(c, live, calls[0]);
      ReplayForwards(s.0, s.1, calls[1..]);
      forall i | 1 <= i < |calls|
        ensures Replay(c, live, calls).1[i] == Forwarded(calls[i])
      {
        assert calls[1..][i - 1] == calls[i];
      }
    }
  }

  /** The status of the last `WriteHeader`, or `initial` when there is none. */
  function LastStatus(calls: seq<Call>, initial: int): int
    decreases |calls|
  {
    if |calls| == 0 then initial
    else LastStatus(calls[1..], if calls[0].CallWriteHeader? then calls[0].status else initial)
  }

  /** The captured status is the last one written, starting from 200. */
  lemma {:induction false} ReplayStatus(c: Captured, live: map<string, string>, calls: seq<Call>)
    ensures Replay(c, live, calls).0.status == LastStatus(calls, c.status)
    decreases |calls|
  {
    if |calls| > 0 {
      var s := Step(c, live, calls[0]);
      ReplayStatus(s.0, s.1, calls[1..]);
    }
  }

  /** The live headers after applying the leading header calls. */
  function HeadersBefore(live: map<string, string>, calls: seq<Call>): map<string, string>
    decreases |calls|
  {
    if |calls| == 0 || !calls[0].CallSetHeader? then live
    else HeadersBefore(live[calls[0].name := calls[0].value], calls[1..])
  }

  /** Once taken, the snapshot never changes. */
  lemma {:induction false} SnapshotKept(c: Captured, live: map<string, string>, calls: seq<Call>)
    requires c.header.Some?
    ensures Replay(c, live, calls).0.header == c.header
    decreases |calls|
  {
    if |calls| > 0 {
      var s := Step(c, live, calls[0]);
      SnapshotKept(s.0, s.1, calls[1..]);
    }
  }

  /** Starting without a snapshot, the snapshot is the live headers as they
      stood at the first `WriteHeader` or `Write`; none is taken if there is none. */
  lemma {:induction false} SnapshotAtFirstWrite(c: Captured, live: map<string, string>, calls: seq<Call>)
    requires c.header.None?
    ensures (exists i :: 0 <= i < |calls| && !calls[i].CallSetHeader?) ==>
      Replay(c, live, calls).0.header == Some(HeadersBefore(live, calls))
    ensures (forall i :: 0 <= i < |calls| ==> calls[i].CallSetHeader?) ==>
      Replay(c, live, calls).0.header.None?
    decreases |calls|
  {
    if |calls| > 0 {
      var s := Step(c, live, calls[0]);
      if calls[0].CallSetHeader? {
        SnapshotAtFirstWrite(s.0, s.1, calls[1..]);
        assert forall i :: 1 <= i < |calls| ==> calls[1..][i - 1] == calls[i];
      } else {
        SnapshotKept(s.0, s.1, calls[1..]);
      }
    }
  }

  /** The data of the writes the real writer accepted, in order. */
  function Accepted(calls: seq<Call>): string
    decreases |calls|
  {
    if |calls| == 0 then ""
    else (if calls[0].CallWrite? && calls[0].err.None? then calls[0].data else "") + Accepted(calls[1..])
  }

  /** With capture on, the buffer grows by exactly the accepted writes; with
      capture off, there is never a buffer. */
  lemma {:induction false} ReplayBuffer(c: Captured, live: map<string, string>, calls: seq<Call>)
    ensures c.buffer.None? ==> Replay(c, live, calls).0.buffer.None?
    ensures c.buffer.Some? ==> Replay(c, live, calls).0.buffer == Some(c.buffer.value + Accepted(calls))
    decreases |calls|
  {
    if |calls| == 0 {
      assert c.buffer.Some? ==> c.buffer.value + Accepted(calls) == c.buffer.value;
    } else {
      var s := Step(c, live, calls[0]);
      ReplayBuffer(s.0, s.1, calls[1..]);
      if c.buffer.Some? {
        var head := if calls[0].CallWrite? && calls[0].err.None? then calls[0].data else "";
        assert c.buffer.value + "" == c.buffer.value;
        assert s.0.buffer == Some(c.buffer.value + head);
        assert c.buffer.value + head + Accepted(calls[1..]) == c.buffer.value + (head + Accepted(calls[1..]));
      }
    }
  }
}
