/** What a handler does to its `http.ResponseWriter`, recorded as a trace of
    calls, and the status and body a client sees as a result. */
module Responses {
  import opened Wrappers

  datatype Event =
    | SetHeader(name: string, value: string)
    | WriteHeader(status: int)
    | Write(data: string)

  const StatusOK := 200
  const StatusCreated := 201
  const StatusNoContent := 204
  const StatusBadRequest := 400
  const StatusUnauthorized := 401
  const StatusNotFound := 404
  const StatusConflict := 409
  const StatusInternalServerError := 500
  const StatusNotImplemented := 501
  const StatusServiceUnavailable := 503
  const StatusGatewayTimeout := 504

  /** The body a client receives: every write, in order. */
  function BodyOf(trace: seq<Event>): string {
    if |trace| == 0 then ""
    else (if trace[0].Write? then trace[0].data else "") + BodyOf(trace[1..])
  }

  /** The status a client receives under `net/http`'s rule: the first explicit
      `WriteHeader`, unless a write came first, in which case 200. */
  function StatusOf(trace: seq<Event>): int {
    if |trace| == 0 then StatusOK
    else if trace[0].WriteHeader? then trace[0].status
    else if trace[0].Write? then StatusOK
    else StatusOf(trace[1..])
  }

  /** The last value set for header `name` before the status was sent; "" when none. */
  function HeaderOf(trace: seq<Event>, name: string): string {
    HeaderFrom(trace, name, "")
  }

  function HeaderFrom(trace: seq<Event>, name: string, current: string): string {
    if |trace| == 0 || trace[0].WriteHeader? || trace[0].Write? then current
    else HeaderFrom(trace[1..], name, if trace[0].name == name then trace[0].value else current)
  }

  /** Exactly one explicit status, sent before any body byte. */
  predicate StatusFirst(trace: seq<Event>) {
    (exists k :: 0 <= k < |trace| && trace[k].WriteHeader?) &&
    forall i, j :: 0 <= i < |trace| && 0 <= j < |trace| && trace[i].Write? && trace[j].WriteHeader? ==> j < i
  }

  /** Under `StatusFirst`, the client sees the status of the explicit `WriteHeader`. */
  lemma {:induction false} StatusFirstSeen(trace: seq<Event>, k: int)
    requires StatusFirst(trace) && 0 <= k < |trace| && trace[k].WriteHeader?
    requires forall j :: 0 <= j < k ==> !trace[j].WriteHeader?
    ensures StatusOf(trace) == trace[k].status
    decreases k
  {
    if k > 0 {
      assert !trace[0].Write?;
      assert StatusFirst(trace[1..]) by {
        assert trace[1..][k - 1] == trace[k];
        forall i, j | 0 <= i < |trace[1..]| && 0 <= j < |trace[1..]| && trace[1..][i].Write? && trace[1..][j].WriteHeader?
          ensures j < i
        {
          assert trace[1..][i] == trace[i + 1] && trace[1..][j] == trace[j + 1];
        }
      }
      forall j | 0 <= j < k - 1
        ensures !trace[1..][j].WriteHeader?
      {
        assert trace[1..][j] == trace[j + 1];
      }
      StatusFirstSeen(trace[1..], k - 1);
    }
  }

  /** The body of two traces in sequence is the two bodies in sequence. */
  lemma {:induction false} BodyOfConcat(t: seq<Event>, u: seq<Event>)
    ensures BodyOf(t + u) == BodyOf(t) + BodyOf(u)
    decreases |t|
  {
    if |t| == 0 {
      assert t + u == u;
    } else {
      assert (t + u)[1..] == t[1..] + u;
      BodyOfConcat(t[1..], u);
    }
  }

  /** Once a status or a body byte has gone out, later events do not change the
      status a client sees. */
  lemma {:induction false} StatusOfConcat(t: seq<Event>, u: seq<Event>, k: int)
    requires 0 <= k < |t| && !t[k].SetHeader?
    ensures StatusOf(t + u) == StatusOf(t)
    decreases k
  {
    assert (t + u)[0] == t[0];
    if !t[0].SetHeader? {
    } else {
      assert (t + u)[1..] == t[1..] + u;
      assert t[1..][k - 1] == t[k];
      StatusOfConcat(t[1..], u, k - 1);
    }
  }

  predicate OnlyHeaders(trace: seq<Event>) {
    forall i :: 0 <= i < |trace| ==> trace[i].SetHeader?
  }

  /** The usual handler shape: set headers, send the status, write the body. */
  function Respond(headers: seq<Event>, status: int, body: string): seq<Event> {
    headers + [WriteHeader(status), Write(body)]
  }

  /** The status sent is the status seen; the body written is the body seen. */
  lemma {:induction false} RespondSeen(headers: seq<Event>, status: int, body: string)
    requires OnlyHeaders(headers)
    ensures StatusFirst(Respond(headers, status, body))
    ensures StatusOf(Respond(headers, status, body)) == status
    ensures BodyOf(Respond(headers, status, body)) == body
    decreases |headers|
  {
    var t := Respond(headers, status, body);
    assert t[|headers|].WriteHeader?;
    if |headers| == 0 {
      assert t[1..] == [Write(body)];
      assert t[1..][1..] == [];
      assert BodyOf(t[1..]) == body + "";
      assert BodyOf(t) == "" + BodyOf(t[1..]);
    } else {
      assert t[1..] == Respond(headers[1..], status, body);
      RespondSeen(headers[1..], status, body);
    }
  }

  /** A single header set before the status is the value seen for it. */
  lemma OneHeaderSeen(name: string, value: string, status: int, body: string)
    ensures HeaderOf(Respond([SetHeader(name, value)], status, body), name) == value
  {
    var t := Respond([SetHeader(name, value)], status, body);
    assert t[1..][0] == WriteHeader(status);
    assert HeaderFrom(t[1..], name, value) == value;
  }

  /** `writeError` of the gateway: a JSON `{"error": message}` body with the
      given status; if marshalling fails, 500 with the failure as plain text. */
  function WriteError(status: int, message: string, marshal: string -> Result<string>): (r: seq<Event>)
    ensures StatusFirst(r)
    ensures StatusOf(r) == (if marshal(message).Ok? then status else StatusInternalServerError)
    ensures BodyOf(r) == (if marshal(message).Ok? then marshal(message).value
                          else "Unable to marshall JSON: " + marshal(message).error)
    ensures HeaderOf(r, "Content-Type") ==
      (if marshal(message).Ok? then "application/json; charset=utf-8" else "text/plain")
  {
    match marshal(message)
    case Err(e) =>
      var r := Respond([SetHeader("Content-Type", "text/plain")], StatusInternalServerError, "Unable to marshall JSON: " + e);
      RespondSeen([SetHeader("Content-Type", "text/plain")], StatusInternalServerError, "Unable to marshall JSON: " + e);
      OneHeaderSeen("Content-Type", "text/plain", StatusInternalServerError, "Unable to marshall JSON: " + e);
      r
    case Ok(b) =>
      var r := Respond([SetHeader("Content-Type", "application/json; charset=utf-8")], status, b);
      RespondSeen([SetHeader("Content-Type", "application/json; charset=utf-8")], status, b);
      OneHeaderSeen("Content-Type", "application/json; charset=utf-8", status, b);
      r
  }

  /** `writeError` of the older service: the status is sent first, whatever the
      marshalling outcome; on failure the body is the marshalling error. */
  function LegacyWriteError(status: int, message: string, marshal: string -> Result<string>): (r: seq<Event>)
    ensures StatusFirst(r)
    ensures StatusOf(r) == status
    ensures HeaderOf(r, "Content-Type") == "application/json; charset=utf-8"
    ensures BodyOf(r) == (if marshal(message).Ok? then marshal(message).value else marshal(message).error)
  {
    var b := match marshal(message) case Ok(b) => b case Err(e) => e;
    RespondSeen([SetHeader("Content-Type", "application/json; charset=utf-8")], status, b);
    OneHeaderSeen("Content-Type", "application/json; charset=utf-8", status, b);
    Respond([SetHeader("Content-Type", "application/json; charset=utf-8")], status, b)
  }

  /** Both versions agree whenever marshalling succeeds. */
  lemma WriteErrorVersionsAgree(status: int, message: string, marshal: string -> Result<string>)
    requires marshal(message).Ok?
    ensures WriteError(status, message, marshal) == LegacyWriteError(status, message, marshal)
  {
  }
}
