/** The Timeplus batch output: construction-time validation and port selection,
    the Connect/Close lifecycle keyed on whether a writer is present, and
    WriteBatch, which converts a batch to columns and rows and hands them to the
    writer. */
module Output {
  import opened Wrappers
  import opened Text
  import opened Columnar

  const ProtocolTimeplus: string := "timeplus"
  const ProtocolTimeplusd: string := "timeplusd"
  const DefaultTimeplusPort: int := 80
  const DefaultTimeplusdPort: int := 8463

  /** The configuration fields the constructor reads, already parsed by the
      framework: `port` and `workspace` are optional fields. */
  datatype Config = Config(
    url: string,
    protocol: string,
    stream: string,
    apikey: string,
    port: Option<int>,
    workspace: Option<string>)

  /** The writer the constructor selects: the HTTP ingest client or the native
      driver, with the arguments it is given. */
  datatype WriterConfig =
    | HttpIngest(baseUrl: string, workspace: string, stream: string, apikey: string)
    | NativeDriver(host: string, port: int, user: string, password: string)

  /** What a successful construction yields. */
  datatype Settings = Settings(protocol: string, stream: string, port: int, writer: Option<WriterConfig>)

  /** A construction error. `MissingField` is the framework's error when an
      optional field that is read is not present; it names the field. */
  datatype ConfigError = MissingField(name: string) | WorkspaceRequired

  function ConfigErrorText(e: ConfigError): string {
    match e
    case MissingField(name) => "field '" + name + "' was not found in the config"
    case WorkspaceRequired => "workspace" + " is required for `timeplus` protocol"
  }

  /** The constructor's results: the output (or its error) and maxInFlight,
      which is assigned before anything can fail. */
  datatype Construction = Construction(result: Result<Settings, ConfigError>, maxInFlight: int)

  /** newTimeplusOutput, step by step as the source reassigns `port`. */
  function NewOutput(conf: Config): Construction {
    var maxInFlight := 1;
    var port1 := if conf.port.Some? then conf.port.value else 0;
    if conf.protocol == ProtocolTimeplus && conf.workspace.None? then
      Construction(Err(MissingField("workspace")), maxInFlight)
    else if conf.protocol == ProtocolTimeplus && |conf.workspace.value| == 0 then
      Construction(Err(WorkspaceRequired), maxInFlight)
    else
      var workspace := if conf.protocol == ProtocolTimeplus then conf.workspace.value else "";
      var port2 :=
        if conf.protocol == ProtocolTimeplus then DefaultTimeplusPort
        else if conf.protocol == ProtocolTimeplusd then DefaultTimeplusdPort
        else port1;
      var port3 := if conf.port.Some? then conf.port.value else port2;
      var writer :=
        if conf.protocol == ProtocolTimeplus then
          Some(HttpIngest(conf.url, workspace, conf.stream, conf.apikey))
        else if conf.protocol == ProtocolTimeplusd then
          Some(NativeDriver(conf.url, port3, "default", ""))
        else None;
      Construction(Ok(Settings(conf.protocol, conf.stream, port3, writer)), maxInFlight)
  }

  /** maxInFlight is 1 whatever the configuration, errors included. */
  lemma MaxInFlightIsOne(conf: Config)
    ensures NewOutput(conf).maxInFlight == 1
  {
  }

  lemma MissingWorkspaceText()
    ensures Contains(ConfigErrorText(MissingField("workspace")), "workspace")
  {
    ContainsMiddle("field '", "workspace", "' was not found in the config");
  }

  lemma WorkspaceRequiredText()
    ensures Contains(ConfigErrorText(WorkspaceRequired), "workspace")
  {
    ContainsMiddle("", "workspace", " is required for `timeplus` protocol");
    assert "" + "workspace" == "workspace";
  }

  /** Construction fails exactly when the `timeplus` protocol is chosen without a
      non-empty workspace, and the error then names the workspace. */
  lemma WorkspaceRequiredForTimeplus(conf: Config)
    ensures NewOutput(conf).result.Err? <==>
      conf.protocol == ProtocolTimeplus && (conf.workspace.None? || conf.workspace.value == "")
    ensures NewOutput(conf).result.Err? ==> Contains(ConfigErrorText(NewOutput(conf).result.error), "workspace")
  {
    var r := NewOutput(conf).result;
    if conf.protocol == ProtocolTimeplus && conf.workspace.None? {
      assert r.error == MissingField("workspace");
      MissingWorkspaceText();
    } else if conf.protocol == ProtocolTimeplus && conf.workspace.value == "" {
      assert r.error == WorkspaceRequired;
      WorkspaceRequiredText();
    }
  }

  /** The effective port: the configured one when present, otherwise 80 for
      `timeplus`, 8463 for `timeplusd` and 0 for any other protocol. */
  lemma EffectivePort(conf: Config)
    requires NewOutput(conf).result.Ok?
    ensures NewOutput(conf).result.value.port ==
      if conf.port.Some? then conf.port.value
      else if conf.protocol == ProtocolTimeplus then 80
      else if conf.protocol == ProtocolTimeplusd then 8463
      else 0
  {
  }

  /** The writer follows the protocol: the HTTP client for `timeplus` (given the
      workspace, not the port), the native driver at the effective port with user
      "default" and an empty password for `timeplusd`, none for anything else. */
  lemma WriterSelection(conf: Config)
    requires NewOutput(conf).result.Ok?
    ensures var s := NewOutput(conf).result.value;
      && s.stream == conf.stream && s.protocol == conf.protocol
      && (conf.protocol == ProtocolTimeplus ==>
            s.writer == Some(HttpIngest(conf.url, conf.workspace.value, conf.stream, conf.apikey)))
      && (conf.protocol == ProtocolTimeplusd ==>
            s.writer == Some(NativeDriver(conf.url, s.port, "default", "")))
      && (conf.protocol != ProtocolTimeplus && conf.protocol != ProtocolTimeplusd ==> s.writer.None?)
  {
  }

  /** The configuration of the repository's first output test: no workspace. */
  lemma MissingWorkspaceExample()
    ensures var r := NewOutput(Config("http://localhost:8000", ProtocolTimeplus, "mystream", "", None, None)).result;
      r.Err? && Contains(ConfigErrorText(r.error), "workspace")
  {
    WorkspaceRequiredForTimeplus(Config("http://localhost:8000", ProtocolTimeplus, "mystream", "", None, None));
  }

  /** One call the output makes on its writer. */
  datatype WriteCall = WriteCall(stream: string, columns: seq<string>, rows: seq<Row>)

  /** How WriteBatch ends: nil, the writer's error, or a Go panic (a method call
      through a nil writer). */
  datatype Outcome = Delivered | Failed(message: string) | Panicked(reason: string)

  const ClientNotInitialized: string := "client not initialized"

  /** The output object. `client` is None once closed (or when no writer was
      selected); `calls` records every call made on the writer. */
  class Sink {
    const protocol: string
    const stream: string
    var client: Option<WriterConfig>
    var calls: seq<WriteCall>

    constructor (settings: Settings)
      ensures protocol == settings.protocol && stream == settings.stream
      ensures client == settings.writer && calls == []
    {
      protocol := settings.protocol;
      stream := settings.stream;
      client := settings.writer;
      calls := [];
    }

    /** Close: drops the writer; always returns nil. */
    method Close() returns (err: Option<string>)
      modifies this`client
      ensures err == None && client == None
    {
      if client.None? {
        return None;
      }
      client := None;
      return None;
    }

    /** Connect: fails exactly when there is no writer. */
    method Connect() returns (err: Option<string>)
      ensures err.None? <==> client.Some?
      ensures err.Some? ==> err.value == ClientNotInitialized
    {
      if client.None? {
        return Some(ClientNotInitialized);
      }
      return None;
    }

    /** WriteBatch. `writerResult` is what the writer's Write returns. An empty
        batch returns at once; otherwise the columns and rows of the batch go to
        the writer in one call and its error is returned unchanged. */
    method WriteBatch(batch: seq<Message>, writerResult: Option<string>) returns (outcome: Outcome)
      modifies this`calls
      ensures batch == [] ==> outcome == Delivered && calls == old(calls)
      ensures batch != [] && client.None? ==> outcome.Panicked? && calls == old(calls)
      ensures batch != [] && client.Some? ==>
        && calls == old(calls) + [WriteCall(stream, Columns(batch), Rows(batch))]
        && outcome == (if writerResult.None? then Delivered else Failed(writerResult.value))
    {
      if |batch| == 0 {
        return Delivered;
      }
      var cols, rows := Columnarize(batch);
      if client.None? {
        return Panicked("nil pointer dereference");
      }
      calls := calls + [WriteCall(stream, cols, rows)];
      if writerResult.None? {
        return Delivered;
      }
      return Failed(writerResult.value);
    }
  }

  /** The lifecycle: Connect succeeds on a fresh output with a writer; Close
      returns nil, also when repeated; after Close, Connect fails with
      "client not initialized" and a batch reaches no writer: an empty one
      returns nil and any other panics on the missing writer. */
  method Lifecycle(settings: Settings, batch: seq<Message>)
    returns (first: Option<string>, closed: Option<string>, closedAgain: Option<string>,
             afterClose: Option<string>, later: Outcome, calls: seq<WriteCall>)
    requires settings.writer.Some?
    ensures first == None && closed == None && closedAgain == None
    ensures afterClose == Some(ClientNotInitialized)
    ensures batch == [] ==> later == Delivered
    ensures batch != [] ==> later.Panicked?
    ensures calls == []
  {
    var sink := new Sink(settings);
    first := sink.Connect();
    closed := sink.Close();
    closedAgain := sink.Close();
    afterClose := sink.Connect();
    later := sink.WriteBatch(batch, None);
    calls := sink.calls;
  }
}
