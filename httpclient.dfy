/** The HTTP ingest client: the ingest URL path and the request header fixed at
    construction, and Write, which builds the two-field payload, takes one slot of
    the in-flight limiter, posts the request and classifies the response. */
module HttpClient {
  import opened Wrappers
  import opened Text
  import opened GoPath
  import Utf8
  import Base64
  import opened Columnar

  const TargetTimeplus: string := "timeplus"
  const TargetTimeplusd: string := "timeplusd"
  const TpApiVersion: string := "v1beta2"
  const TimeplusdApiVersion: string := "v1"

  /** A URL: `origin` stands for every part but the path (scheme, host, query),
      which the client copies unchanged. */
  datatype Url = Url(origin: string, path: string)

  /** http.Header: each name maps to its list of values. */
  type Header = map<string, seq<string>>

  /** http.Header.Add: appends `value` to the values of `key`. Go also puts the
      key in canonical form (textproto.CanonicalMIMEHeaderKey); that step is
      not modelled, and it changes nothing for the keys the client uses,
      "Content-Type", "Authorization" and "X-Api-Key", which are canonical
      already. */
  function AddHeader(h: Header, key: string, value: string): (r: Header)
    ensures r.Keys == h.Keys + {key}
    ensures r[key] == (if key in h then h[key] else []) + [value]
    ensures forall k :: k in h && k != key ==> r[k] == h[k]
  {
    h[key := (if key in h then h[key] else []) + [value]]
  }

  /** The Basic authorization value: "Basic " and the standard base64 of the
      UTF-8 bytes of "username:password". */
  function BasicCredentials(username: string, password: string): string {
    "Basic " + Base64.Encode(Utf8.Encode(username + ":" + password))
  }

  /** The header NewClient builds. Go's `len` counts the bytes of a string. */
  function NewHeader(target: string, apikey: string, username: string, password: string): Header {
    var h0 := AddHeader(map[], "Content-Type", "application/json");
    var h1 :=
      if |Utf8.Encode(username)| + |Utf8.Encode(password)| > 0 then
        AddHeader(h0, "Authorization", BasicCredentials(username, password))
      else h0;
    if target == TargetTimeplus && |Utf8.Encode(apikey)| > 0 then AddHeader(h1, "X-Api-Key", apikey)
    else h1
  }

  /** The ingest path NewClient sets on the URL, from the base URL's path. */
  function IngestPath(target: string, basePath: string, workspace: string, stream: string): string {
    if target == TargetTimeplus then
      PathJoin([basePath, workspace, "api", TpApiVersion, "streams", stream, "ingest"])
    else if target == TargetTimeplusd then
      PathJoin([basePath, "timeplusd", TimeplusdApiVersion, "ingest", "streams", stream])
    else basePath
  }

  /** The header always says the body is JSON, and holds no names but the three
      the client sets. */
  lemma HeaderContentType(target: string, apikey: string, username: string, password: string)
    ensures var h := NewHeader(target, apikey, username, password);
      && h["Content-Type"] == ["application/json"]
      && h.Keys <= {"Content-Type", "Authorization", "X-Api-Key"}
  {
  }

  /** Authorization is set exactly when the username or the password is
      non-empty (not only when both are), once, to the Basic credentials. */
  lemma HeaderAuthorization(target: string, apikey: string, username: string, password: string)
    ensures var h := NewHeader(target, apikey, username, password);
      && ("Authorization" in h <==> username != "" || password != "")
      && ("Authorization" in h ==> h["Authorization"] == [BasicCredentials(username, password)])
  {
    Utf8.EncodeEmpty(username);
    Utf8.EncodeEmpty(password);
  }

  /** X-Api-Key is set exactly for the `timeplus` target with a non-empty key,
      to that key; never for `timeplusd`. */
  lemma HeaderApiKey(target: string, apikey: string, username: string, password: string)
    ensures var h := NewHeader(target, apikey, username, password);
      && ("X-Api-Key" in h <==> target == TargetTimeplus && apikey != "")
      && ("X-Api-Key" in h ==> h["X-Api-Key"] == [apikey])
  {
    Utf8.EncodeEmpty(apikey);
  }

  /** The Basic token decodes back to "username:password". */
  lemma BasicCredentialsDecode(username: string, password: string)
    ensures var v := BasicCredentials(username, password);
      && HasPrefix(v, "Basic ")
      && Base64.Decode(v[6..]).Some?
      && Utf8.Decode(Base64.Decode(v[6..]).value) == Some(username + ":" + password)
  {
    var bytes := Utf8.Encode(username + ":" + password);
    var v := BasicCredentials(username, password);
    assert v[6..] == Base64.Encode(bytes);
    assert v[..6] == "Basic ";
    Base64.DecodeEncode(bytes);
    Utf8.DecodeEncode(username + ":" + password);
  }

  /** The fixed elements of both ingest paths are plain. */
  lemma FixedSegmentsPlain()
    ensures Plain("api") && Plain(TpApiVersion) && Plain("streams") && Plain("ingest")
    ensures Plain("timeplusd") && Plain(TimeplusdApiVersion)
  {
    assert '/' !in "api" && '/' !in "streams" && '/' !in "ingest" && '/' !in "timeplusd";
    assert '/' !in TpApiVersion && '/' !in TimeplusdApiVersion;
  }

  /** For `timeplus`, the path is the cleaned base path followed by
      workspace/api/v1beta2/streams/stream/ingest (an empty workspace or stream
      drops out, as path.Join drops empty elements). */
  lemma {:induction false} IngestPathTimeplus(basePath: string, workspace: string, stream: string)
    requires Segment(workspace) && Segment(stream)
    ensures IngestPath(TargetTimeplus, basePath, workspace, stream) ==
      Extend(Clean(basePath), NonEmpty([workspace, "api", TpApiVersion, "streams", stream, "ingest"]))
  {
    var segs := [workspace, "api", TpApiVersion, "streams", stream, "ingest"];
    FixedSegmentsPlain();
    assert forall s :: s in segs ==> Segment(s);
    assert segs[1] in segs;
    assert [basePath] + segs == [basePath, workspace, "api", TpApiVersion, "streams", stream, "ingest"];
    JoinPlain(basePath, segs);
  }

  /** For `timeplusd`, the path is the cleaned base path followed by
      timeplusd/v1/ingest/streams/stream. */
  lemma {:induction false} IngestPathTimeplusd(basePath: string, workspace: string, stream: string)
    requires Segment(stream)
    ensures IngestPath(TargetTimeplusd, basePath, workspace, stream) ==
      Extend(Clean(basePath), NonEmpty(["timeplusd", TimeplusdApiVersion, "ingest", "streams", stream]))
  {
    var segs := ["timeplusd", TimeplusdApiVersion, "ingest", "streams", stream];
    FixedSegmentsPlain();
    assert forall s :: s in segs ==> Segment(s);
    assert segs[0] in segs;
    assert [basePath] + segs == [basePath, "timeplusd", TimeplusdApiVersion, "ingest", "streams", stream];
    JoinPlain(basePath, segs);
  }

  lemma {:induction false} CleanRoot()
    ensures Clean("/") == "/"
  {
    assert Split("/", '/') == ["", ""] by {
      assert "/"[1..] == "";
    }
    assert Reduce(["", ""], true) == [] by {
      assert ["", ""][..1] == [""];
      assert [""][..0] == [];
    }
  }

  /** A base URL ending in "/" (as in the repository's remote test) gives the
      rooted path /workspace/api/v1beta2/streams/stream/ingest. */
  lemma {:induction false} IngestPathAtRoot(workspace: string, stream: string)
    requires Plain(workspace) && Plain(stream)
    ensures IngestPath(TargetTimeplus, "/", workspace, stream) ==
      "/" + Join([workspace, "api", TpApiVersion, "streams", stream, "ingest"], '/')
  {
    var segs := [workspace, "api", TpApiVersion, "streams", stream, "ingest"];
    IngestPathTimeplus("/", workspace, stream);
    CleanRoot();
    NonEmptyAll(segs);
  }

  /** Any other target leaves the base path as it is. */
  lemma IngestPathOther(target: string, basePath: string, workspace: string, stream: string)
    requires target != TargetTimeplus && target != TargetTimeplusd
    ensures IngestPath(target, basePath, workspace, stream) == basePath
  {
  }

  /** The two-field ingest body: `columns` first, then `data`. */
  datatype Payload = Payload(columns: seq<string>, data: seq<Row>)

  /** A request handed to the HTTP transport. */
  datatype Request = Request(verb: string, url: Url, header: Header, body: Payload)

  /** What the transport answers: an error, or a response with its status code. */
  datatype RoundTrip = NetworkError(message: string) | Response(status: int)

  /** The outcomes the environment supplies to one Write: a JSON encoding error,
      an error building the request, the context's error if it is done before a
      slot is granted, and the round trip. */
  datatype Env = Env(marshal: Option<string>, newRequest: Option<string>, ctxErr: Option<string>, roundTrip: RoundTrip)

  /** The errors Write returns. `Blocked` stands for an Acquire that finds no free
      slot with a live context: in Go the call waits, and in a sequential run no
      slot is ever released to it. */
  datatype Error =
    | Marshal(message: string)
    | NewRequest(message: string)
    | Context(message: string)
    | Blocked
    | Transport(message: string)
    | BadStatus(status: int)

  const StatusPrefix: string := "failed to ingest, got status code "

  function ErrorText(e: Error): string {
    match e
    case Marshal(m) => m
    case NewRequest(m) => m
    case Context(m) => m
    case Blocked => "blocked waiting for an in-flight slot"
    case Transport(m) => m
    case BadStatus(s) => StatusPrefix + IntToString(s)
  }

  /** The status code a status error message carries. */
  function StatusOfText(t: string): Option<int> {
    if HasPrefix(t, StatusPrefix) then ParseInt(t[|StatusPrefix|..]) else None
  }

  /** The response check: a status outside [200, 299] is an error. */
  function Classify(status: int): Option<Error> {
    if status < 200 || status > 299 then Some(BadStatus(status)) else None
  }

  /** A 2xx status is success; any other status is an error whose message
      contains the status in decimal and reads back as that status. */
  lemma ClassifyStatus(status: int)
    ensures Classify(status).None? <==> 200 <= status <= 299
    ensures Classify(status).Some? ==>
      && Contains(ErrorText(Classify(status).value), IntToString(status))
      && StatusOfText(ErrorText(Classify(status).value)) == Some(status)
  {
    if Classify(status).Some? {
      var t := StatusPrefix + IntToString(status);
      ContainsMiddle(StatusPrefix, IntToString(status), "");
      assert StatusPrefix + IntToString(status) + "" == t;
      assert t[..|StatusPrefix|] == StatusPrefix && t[|StatusPrefix|..] == IntToString(status);
      ParseIntToString(status);
    }
  }

  /** Acquire of one slot, in a sequential run: the context's error if it is done
      (checked first), a slot if one is free, Blocked otherwise. */
  function AcquireResult(size: int, cur: int, ctxErr: Option<string>): Option<Error> {
    if ctxErr.Some? then Some(Context(ctxErr.value))
    else if size - cur >= 1 then None
    else Some(Blocked)
  }

  /** Write reaches the transport: encoding, request building and Acquire all succeeded. */
  predicate Sends(env: Env, size: int, cur: int) {
    env.marshal.None? && env.newRequest.None? && AcquireResult(size, cur, env.ctxErr).None?
  }

  /** What Write returns, in the order of its steps. */
  function WriteResult(env: Env, size: int, cur: int): Option<Error> {
    if env.marshal.Some? then Some(Marshal(env.marshal.value))
    else if env.newRequest.Some? then Some(NewRequest(env.newRequest.value))
    else if AcquireResult(size, cur, env.ctxErr).Some? then AcquireResult(size, cur, env.ctxErr)
    else
      match env.roundTrip
      case NetworkError(m) => Some(Transport(m))
      case Response(status) => Classify(status)
  }

  /** A failed Acquire is returned as it is and nothing is sent. */
  lemma AcquireFailureSendsNothing(env: Env, size: int, cur: int)
    requires env.marshal.None? && env.newRequest.None?
    requires env.ctxErr.Some? || size - cur < 1
    ensures !Sends(env, size, cur)
    ensures WriteResult(env, size, cur) == AcquireResult(size, cur, env.ctxErr)
    ensures env.ctxErr.Some? ==> WriteResult(env, size, cur) == Some(Context(env.ctxErr.value))
  {
  }

  /** Write returns nil exactly when the request was sent and answered with a 2xx
      status; a transport error is returned verbatim. */
  lemma WriteSucceeds(env: Env, size: int, cur: int)
    ensures WriteResult(env, size, cur).None? <==>
      Sends(env, size, cur) && env.roundTrip.Response? && 200 <= env.roundTrip.status <= 299
    ensures Sends(env, size, cur) && env.roundTrip.NetworkError? ==>
      WriteResult(env, size, cur) == Some(Transport(env.roundTrip.message))
  {
  }

  /** The in-flight limiter: a counter of held slots out of `size`. */
  class Semaphore {
    const size: int
    var cur: int

    ghost predicate Valid()
      reads this
    {
      0 <= cur && (cur == 0 || cur <= size)
    }

    constructor (n: int)
      ensures Valid() && size == n && cur == 0
    {
      size := n;
      cur := 0;
    }

    method Acquire(ctxErr: Option<string>) returns (err: Option<Error>)
      requires Valid()
      modifies this
      ensures Valid()
      ensures err == AcquireResult(size, old(cur), ctxErr)
      ensures cur == if err.None? then old(cur) + 1 else old(cur)
    {
      if ctxErr.Some? {
        return Some(Context(ctxErr.value));
      }
      if size - cur >= 1 {
        cur := cur + 1;
        return None;
      }
      return Some(Blocked);
    }

    /** Release of one slot; Go panics if none is held. */
    method Release()
      requires Valid() && cur >= 1
      modifies this
      ensures Valid() && cur == old(cur) - 1
    {
      cur := cur - 1;
    }
  }

  /** The client. `sent` records the requests handed to the transport and
      `inFlightAtSend` how many slots were held when each was sent. */
  class Client {
    const ingestUrl: Url
    const header: Header
    const sem: Semaphore
    var sent: seq<Request>
    ghost var inFlightAtSend: seq<int>

    /** Every request was sent while holding a slot, never beyond the bound. */
    ghost predicate Valid()
      reads this, sem
    {
      && sem.Valid()
      && |inFlightAtSend| == |sent|
      && forall i :: 0 <= i < |inFlightAtSend| ==> 1 <= inFlightAtSend[i] <= sem.size
    }

    /** NewClient. */
    constructor (maxInFlight: int, target: string, baseUrl: Url, workspace: string, stream: string,
                 apikey: string, username: string, password: string)
      ensures Valid() && fresh(sem)
      ensures ingestUrl == Url(baseUrl.origin, IngestPath(target, baseUrl.path, workspace, stream))
      ensures header == NewHeader(target, apikey, username, password)
      ensures sem.size == maxInFlight && sem.cur == 0 && sent == []
    {
      ingestUrl := Url(baseUrl.origin, IngestPath(target, baseUrl.path, workspace, stream));
      header := NewHeader(target, apikey, username, password);
      sem := new Semaphore(maxInFlight);
      sent := [];
      inFlightAtSend := [];
    }

    /** Write: the slot taken by Acquire is given back on every path after it, so
        the number of held slots is what it was before the call. */
    method Write(cols: seq<string>, rows: seq<Row>, env: Env) returns (err: Option<Error>)
      requires Valid()
      modifies this, sem
      ensures Valid()
      ensures sem.cur == old(sem.cur)
      ensures err == WriteResult(env, sem.size, old(sem.cur))
      ensures sent == old(sent) +
        if Sends(env, sem.size, old(sem.cur)) then [Request("POST", ingestUrl, header, Payload(cols, rows))] else []
    {
      var payload := Payload(cols, rows);
      if env.marshal.Some? {
        return Some(Marshal(env.marshal.value));
      }
      if env.newRequest.Some? {
        return Some(NewRequest(env.newRequest.value));
      }
      var req := Request("POST", ingestUrl, header, payload);
      err := sem.Acquire(env.ctxErr);
      if err.Some? {
        return;
      }
      sent := sent + [req];
      inFlightAtSend := inFlightAtSend + [sem.cur];
      match env.roundTrip {
        case NetworkError(m) =>
          err := Some(Transport(m));
        case Response(status) =>
          err := Classify(status);
      }
      sem.Release();
    }
  }
}
