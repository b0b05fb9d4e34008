# Timeplus sink connector — a Dafny model

This project models the core of the Timeplus output of a stream-processing
connector. The output takes batches of messages and writes them to a Timeplus
stream. It covers:

- **Construction** (`Output.NewOutput`): configuration validation. The
  `timeplus` protocol requires a workspace. The port is 80 for `timeplus` and
  8463 for `timeplusd`, and a configured port overrides either. The output
  chooses its writer from the protocol, and maxInFlight is always 1.
- **Lifecycle** (`Output.Sink`): Connect fails when there is no writer, and Close
  drops the writer.
- **WriteBatch** (`Output.Sink.WriteBatch`, `Columnar`): the batch becomes one
  columnar payload.
  - Messages that are not structured, or not a JSON object, are skipped.
  - Each record's keys are sorted (Go's `sort.Strings`, modelled in `Order`).
  - A record's row holds its values in key order.
  - The column list is the key list of the last record.
  - An empty batch returns without calling the writer.
- **HTTP ingest client** (`HttpClient`):
  - The ingest path is built with Go's `path.Join`/`path.Clean`, modelled in
    `GoPath`.
  - The request header: `Content-Type`, a Basic `Authorization` value, and
    `X-Api-Key`.
  - The Basic value is base64 (section 4 of RFC 4648, modelled in `Base64`) of
    the UTF-8 bytes (`Utf8`) of `username:password`.
  - Write builds the two-field payload and takes one slot of an in-flight
    semaphore. It posts the request and gives the slot back. A status outside
    [200, 299] becomes the error "failed to ingest, got status code N".
- **Native driver** (`Proton`):
  - The dial address is `host:port`.
  - Write is a bulk insert inside one transaction: Begin, then Prepare
    `INSERT INTO <stream> (<cols joined by ",">) values`, then one Exec per row
    that stops at the first failure, then Commit only when every row succeeded.
  - No path rolls the transaction back.

The operations the source performs by updating objects are classes:

- the output (`Output.Sink`);
- the semaphore and the HTTP client (`HttpClient.Semaphore`, `HttpClient.Client`);
- the transaction and the driver (`Proton.Tx`, `Proton.Driver`).

Each method is proved against a pure specification function: `Columnar.Columns`
and `Columnar.Rows`, `HttpClient.WriteResult`, and `Proton.WriteTrace`.
Lemmas then prove what the source promises about those functions.

Effects outside the model are parameters that a caller supplies. This covers:

- the writer's result in WriteBatch;
- the JSON encoding error, the request-building error, the context's state and
  the HTTP round trip in the client's Write (`HttpClient.Env`);
- the database's answers to Begin, Prepare, each Exec and Commit (`Proton.Db`).

Go's `%d` formatting (`Text.IntToString`) is modelled together with a parser,
so every formatted number is proved to read back.

## Model

| member | source | states |
|---|---|---|
| `Order.LessTotal` | internal/impl/timeplus/output.go:90 | the byte-wise string order `sort.Strings` uses is total: of two different strings one is less |
| `Order.LessTransitive` | internal/impl/timeplus/output.go:90 | the string order is transitive |
| `Order.Sort` | internal/impl/timeplus/output.go:90 | the result of sorting is sorted and a permutation (same multiset) of the input |
| `Order.SortedKeys` | internal/impl/timeplus/output.go:85-90 | the sorted key list of a record is strictly increasing, has one entry per key and holds exactly the record's keys |
| `Order.StrictlySortedUnique` | internal/impl/timeplus/output.go:90 | two strictly sorted lists with the same elements are equal, so the column order does not depend on map iteration order |
| `Columnar.RecordKeys` | internal/impl/timeplus/output.go:85-90 | collecting a record's keys in any iteration order and sorting them yields exactly the sorted key list |
| `Columnar.RecordRow` | internal/impl/timeplus/output.go:92-94 | the row holds, at each position, the record's value for the key at that position |
| `Columnar.RowShape` | internal/impl/timeplus/output.go:92-96 | a record's row has one value per key, and value i is the record's value for sorted key i |
| `Columnar.Columnarize` | internal/impl/timeplus/output.go:72-100 | the conversion loop returns exactly the columns and rows of the batch's specification |
| `Columnar.RowsOrder` | internal/impl/timeplus/output.go:74-96 | row j is the row of the j-th surviving record; survivors keep batch order; every record of the batch survives and nothing else does |
| `Columnar.RowCount` | internal/impl/timeplus/output.go:74-96 | the number of rows is the number of messages that are JSON objects |
| `Columnar.ColumnsLast` | internal/impl/timeplus/output.go:99 | the columns are the sorted keys of the last record in the batch, or empty when there is none |
| `ColumnarExamples.TwoRecords` | internal/impl/timeplus/timeplus_output_test.go:43-64 | the test's two records with keys col1, col2, col3 give the sorted columns col1, col2, col3 and one row per record, in batch order, holding the values under those keys |
| `ColumnarExamples.SkipUnparsable` | internal/impl/timeplus/output.go:74-83 | an unparsable message between two records is skipped: two rows, columns from the last record |
| `Output.MaxInFlightIsOne` | internal/impl/timeplus/output.go:106 | maxInFlight is 1 on every path, errors included |
| `Output.WorkspaceRequiredForTimeplus` | internal/impl/timeplus/output.go:137-146 | construction fails if and only if the protocol is `timeplus` and the workspace is missing or empty; the error message then mentions "workspace" |
| `Output.EffectivePort` | internal/impl/timeplus/output.go:128-156 | the port is the configured one when present, else 80 for `timeplus`, 8463 for `timeplusd`, 0 otherwise |
| `Output.WriterSelection` | internal/impl/timeplus/output.go:163-181 | `timeplus` selects the HTTP client with url, workspace, stream and API key; `timeplusd` selects the native driver at the effective port as user "default" with an empty password; any other protocol selects none |
| `Output.MissingWorkspaceExample` | internal/impl/timeplus/timeplus_output_test.go:15-25 | the repository's configuration without a workspace is rejected with an error containing "workspace" |
| `Output.Sink.constructor` | internal/impl/timeplus/output.go:177-181 | the output holds the protocol, the stream and the selected writer |
| `Output.Sink.Close` | internal/impl/timeplus/output.go:46-55 | Close always returns nil and leaves no writer |
| `Output.Sink.Connect` | internal/impl/timeplus/output.go:57-64 | Connect fails if and only if there is no writer, with "client not initialized" |
| `Output.Sink.WriteBatch` | internal/impl/timeplus/output.go:67-103 | an empty batch returns nil without a writer call; otherwise exactly one writer call is made, with the stream and the batch's columns and rows, and its error is returned unchanged; with no writer the call panics |
| `Output.Lifecycle` | internal/impl/timeplus/output.go:46-103 | Connect succeeds on a new output; Close returns nil, also the second time; after Close, Connect fails with "client not initialized", and a batch makes no writer call: an empty one returns nil, any other panics |
| `HttpClient.AddHeader` | internal/impl/timeplus/http/client.go:41 | adding a header value appends it to that name's values and leaves other names unchanged |
| `HttpClient.HeaderContentType` | internal/impl/timeplus/http/client.go:40-41 | the header always carries Content-Type application/json, and no names but Content-Type, Authorization and X-Api-Key |
| `HttpClient.HeaderAuthorization` | internal/impl/timeplus/http/client.go:43-46 | Authorization is present if and only if the username or the password is non-empty, holding exactly one Basic credentials value |
| `HttpClient.HeaderApiKey` | internal/impl/timeplus/http/client.go:51-53 | X-Api-Key is present if and only if the target is `timeplus` and the key is non-empty, holding the key |
| `HttpClient.BasicCredentialsDecode` | internal/impl/timeplus/http/client.go:44-45 | the Basic value is "Basic " followed by base64 text that decodes back to the UTF-8 bytes of "username:password" |
| `HttpClient.IngestPathTimeplus` | internal/impl/timeplus/http/client.go:48-49 | the `timeplus` path is the cleaned base path extended by workspace/api/v1beta2/streams/stream/ingest, with empty elements dropped |
| `HttpClient.IngestPathTimeplusd` | internal/impl/timeplus/http/client.go:54-55 | the `timeplusd` path is the cleaned base path extended by timeplusd/v1/ingest/streams/stream |
| `HttpClient.IngestPathAtRoot` | internal/impl/timeplus/http/client.go:49 | a base path "/" gives /workspace/api/v1beta2/streams/stream/ingest |
| `HttpClient.IngestPathOther` | internal/impl/timeplus/http/client.go:48-56 | any other target leaves the base path unchanged |
| `HttpClient.ClassifyStatus` | internal/impl/timeplus/http/client.go:93-95 | a status is accepted if and only if it is in [200, 299]; otherwise the error text contains the status in decimal and reads back as that status |
| `HttpClient.AcquireFailureSendsNothing` | internal/impl/timeplus/http/client.go:84-86 | when no slot can be taken, nothing is sent and the semaphore's error (the context's error when it is done) is returned |
| `HttpClient.WriteSucceeds` | internal/impl/timeplus/http/client.go:67-99 | Write returns nil if and only if the request was sent and answered with a 2xx status; a transport error is returned as it is |
| `HttpClient.Semaphore.constructor` | internal/impl/timeplus/http/client.go:63 | a new semaphore of weight maxInFlight holds no slot |
| `HttpClient.Semaphore.Acquire` | internal/impl/timeplus/http/client.go:84-86 | Acquire fails on a done context, otherwise takes a slot when one is free; a slot is taken exactly when it succeeds |
| `HttpClient.Semaphore.Release` | internal/impl/timeplus/http/client.go:88 | Release gives one held slot back |
| `HttpClient.Client.constructor` | internal/impl/timeplus/http/client.go:37-65 | the client holds the base URL with the ingest path, the constructed header and an empty semaphore of weight maxInFlight |
| `HttpClient.Client.Write` | internal/impl/timeplus/http/client.go:67-100 | the result follows the steps in order (encode, build request, acquire, round trip, status); exactly one POST of the two-field payload to the ingest URL with the header is sent when acquire succeeds; every send holds a slot within the bound; the slot count is back to its old value afterwards |
| `GoPath.JoinPlain` | internal/impl/timeplus/http/client.go:49 | joining a base path with plain or empty elements is the cleaned base extended by the non-empty elements, separated by "/" |
| `GoPath.ReduceRootedNoDotDot` | internal/impl/timeplus/http/client.go:49 | cleaning a rooted path never leaves a ".." element |
| `Base64.Encode` | internal/impl/timeplus/http/client.go:45 | standard padded base64 text is 4 characters per started group of 3 bytes |
| `Base64Vectors.FooBar` | internal/impl/timeplus/http/client.go:45 | the bytes of "foobar" encode to "Zm9vYmFy", the test vector of RFC 4648 section 10 |
| `Base64Vectors.PaddedVectors` | internal/impl/timeplus/http/client.go:45 | the RFC 4648 test vectors with padding: "" to "", "f" to "Zg==", "fo" to "Zm8=" |
| `Base64Vectors.FooBa` | internal/impl/timeplus/http/client.go:45 | "fooba" encodes to "Zm9vYmE=" |
| `Base64.DecodeEncode` | internal/impl/timeplus/http/client.go:45 | base64 encoding is decoded back to the same bytes |
| `Utf8.DecodeEncode` | internal/impl/timeplus/http/client.go:45 | the UTF-8 bytes of a string decode back to that string |
| `Utf8.EncodeEmpty` | internal/impl/timeplus/http/client.go:43 | a string has zero bytes if and only if it is empty |
| `Text.IntToString` | internal/impl/timeplus/http/client.go:94 | decimal formatting produces no ':', ',' or '/' |
| `Text.ParseIntToString` | internal/impl/timeplus/http/client.go:94 | decimal formatting of an integer reads back as that integer |
| `Text.SplitJoin` | internal/impl/timeplus/proton/driver.go:44 | joining separator-free parts and splitting at the separator gives the parts back |
| `Proton.AddressRoundTrip` | internal/impl/timeplus/proton/driver.go:21 | the text after the last ':' of the dial address is the port in decimal, which reads back as the port, and the text before it is the host |
| `Proton.InsertStatementColumns` | internal/impl/timeplus/proton/driver.go:44 | the prepared statement names the stream and carries the columns in order; they can be read back from it |
| `Proton.FirstFailureIsFirst` | internal/impl/timeplus/proton/driver.go:49-53 | every Exec before the first failure succeeds and the one at it fails |
| `Proton.BeginFailure` | internal/impl/timeplus/proton/driver.go:38-41 | a Begin error is returned with nothing prepared, executed or committed |
| `Proton.PrepareOnce` | internal/impl/timeplus/proton/driver.go:44-47 | once begun, exactly the INSERT for the stream and columns is prepared; a Prepare error is returned with no row executed and no commit |
| `Proton.ExecutedPrefix` | internal/impl/timeplus/proton/driver.go:49-53 | rows are executed in order up to and including the first failing one, whose error is returned; no row after it is executed |
| `Proton.CommitIffAllSucceed` | internal/impl/timeplus/proton/driver.go:49-55 | Commit is issued if and only if Begin, Prepare and every Exec succeed, and Commit's result is then what Write returns |
| `Proton.NoRollback` | internal/impl/timeplus/proton/driver.go:37-56 | no path rolls back, so a failing Write leaves the transaction neither committed nor rolled back |
| `Proton.EmptyRowsCommit` | internal/impl/timeplus/proton/driver.go:49-55 | with no rows, Commit follows Prepare directly |
| `Proton.SecondOfThreeFails` | internal/impl/timeplus/proton/driver.go:49-53 | when row 2 of 3 fails, its error is returned, row 3 is never executed and nothing is committed |
| `Proton.Tx.constructor` | internal/impl/timeplus/proton/driver.go:38 | a newly begun transaction has nothing prepared, executed or committed |
| `Proton.Tx.Prepare` | internal/impl/timeplus/proton/driver.go:44 | Prepare records the statement and returns the database's answer |
| `Proton.Tx.Exec` | internal/impl/timeplus/proton/driver.go:50 | Exec records the row and returns the database's answer |
| `Proton.Tx.Commit` | internal/impl/timeplus/proton/driver.go:55 | Commit is issued and succeeds exactly when the database accepts it |
| `Proton.Driver.constructor` | internal/impl/timeplus/proton/driver.go:19-35 | the driver dials host:port with the configured user and password |
| `Proton.Driver.Write` | internal/impl/timeplus/proton/driver.go:37-56 | Write's result and its transaction's observable state are exactly the transaction trace of the specification; no transaction exists when Begin fails |

## Left out

- JSON encoding of the payload: the body is the two-field `Payload` value rather than its bytes. A JSON encoding failure is an input (`Env.marshal`).
- URL parsing and serialization: a URL is its path plus an opaque origin. The error that `url.Parse` would return on re-parsing is discarded by the source and is not modelled.
- Concurrency: the semaphore is a sequential counter. A call that would wait for a slot ends in `HttpClient.Blocked`, because no other caller releases one in a sequential run. Fairness and waking order are not modelled.
- HttpClient.Semaphore.Acquire: a done context is reported before looking for a free slot. The waiters queue that the library also consults is not modelled, because in a sequential run it is always empty.
- The response body is closed only on the 2xx path. Closing, and the connection leak on other statuses, are not modelled.
- Opening the database pool, the dial timeout of 5 seconds and `SetMaxIdleConns` are foreign calls and are left out. The driver keeps only the address and the credentials.
- Registration of the configuration spec and the batch policy are framework code and are not modelled. Defaults and parsing of the fields are the framework's, so the model receives the fields already parsed.
- Output.NewOutput: the wording of a missing-field error is the framework's. The model names the field (`MissingField`).
- The order of iteration over a Go map is unspecified. The model proves that collecting keys in any order and sorting gives one result. `sort.Strings` is modelled on a value, not in place.
- The call sites of the writers do not match their definitions. `output.go:166` calls `http.NewClient` with five arguments, where `client.go:37` takes nine. `WriteBatch` calls `Write(stream, cols, rows)`, but the HTTP client's `Write` takes a context instead of a stream. The model therefore treats the writer in `Output.Sink` as abstract: it records the call and returns the result given to it.
- Record values keep their Go type (`int`, `float64`, `bool`, `string`, …): the repository's tests put Go `int` values into records, and `AsStructured` returns them unchanged. The model folds every number into one `Number(real)`, so the difference between `5` and `5.0` is not captured.
- Strings are assumed to be valid UTF-8. A Dafny `string` is a sequence of Unicode scalar values, whereas a Go string may hold any bytes. `Order.Less` equals Go's byte-wise string order, and `Utf8.Encode` equals `[]byte(s)` (and its length equals `len(s)`), only for valid UTF-8.
- Logging is left out.

Where the code and the written description of the system disagree, the model follows the code:

- The `Authorization` header is added when either the username or the password is non-empty, not only when both are.
- `X-Api-Key` is added only for the `timeplus` target.
- No "raw" single-column fallback for unparsable messages exists in the code; such messages are always skipped.
