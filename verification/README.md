# Inter-AZ traffic visibility for EKS — a Dafny model of its logic

The system runs on a schedule. Each hour, a Step Functions state machine
invokes a Lambda function, the pod-metadata extractor. The extractor lists the
cluster's nodes and pods, writes one CSV record per pod (name, IP, app label,
Ready time, node, availability zone) and uploads the file to S3. If the
extractor answers with status code 200, the state machine starts an Athena
query. The query joins that CSV table with the VPC flow logs to find
cross-AZ traffic. The query text comes from a SQL template: its comment lines
are dropped and four named placeholders are filled in. Three Glue tables
describe the data the query reads and writes.

The model covers the logic parts of this system:

- `results.dfy` (`Results`): `Option` and `Result`. A Python `None` becomes
  `None`, and an exception becomes `Err`.
- `text.dfy` (`Text`): `sep.join` and `str.split` for one-character
  separators, with their round trips, plus decimal rendering of a natural
  number.
- `pod_metadata.dfy` (`PodMetadata`): the node-to-zone map, the per-pod
  records and the CSV text (`get_pods.py`).
- `handler.dfy` (`Handler`): how `lambda_handler` routes each stage's
  failure to a status code.
- `query_template.dfy` (`QueryTemplate`): `__get_formatted_query`. It models
  line iteration over the template text, the `#` comment filter, and `str.format` with
  keyword arguments.
- `glue_columns.dfy` (`GlueColumns`): the three table schemas. It shows they
  agree with the CSV header and with the VPC flow-log record format.
- `orchestrator.dfy` (`Orchestrator`): the state machine definition as data,
  plus a small interpreter for it.
- `pipeline.dfy` (`Pipeline`): the handler composed with the state machine.
  This gives an end-to-end statement of when the query runs.

The model treats the Kubernetes listings, the local file write and the S3
upload as inputs. A listing is a `Result` value, and the write and upload
outcomes are booleans.

## Model

| member | source | states |
|---|---|---|
| PodMetadata.NodeZones | pod_metadata_extractor/runtime/get_pods.py:118-128 | the map's keys are exactly the listed node names; for a duplicated name the last node listed wins; each node maps to its `topology.kubernetes.io/zone` label value or to `<none>`; a node without labels makes the call fail |
| PodMetadata.FirstReady | pod_metadata_extractor/runtime/get_pods.py:141 | finds the first condition of type `Ready`; finds none exactly when no condition has that type |
| PodMetadata.PodRecord | pod_metadata_extractor/runtime/get_pods.py:140-153 | the record copies name, IP and node; `app` is the app label or `<none>`; `creation_time` comes from the first Ready condition; `az` is the node's zone or `<none>` when the node is unknown; the call fails when conditions are missing or none is Ready |
| PodMetadata.PodsInfo | pod_metadata_extractor/runtime/get_pods.py:135-157 | gives one record per listed pod, in listing order; succeeds exactly when every pod can be turned into a record; otherwise fails with the first failing pod's error |
| PodMetadata.HeaderRowText | pod_metadata_extractor/runtime/get_pods.py:166 | the header row is `name,ip,app,creation_time,node,az` |
| PodMetadata.Fields | pod_metadata_extractor/runtime/get_pods.py:146-153 | six values; the one at each position is the value the record dictionary holds under the key inserted at that position |
| PodMetadata.RecordKeysAreHeader | pod_metadata_extractor/runtime/get_pods.py:146-166 | the record dictionary's keys, in insertion order, are the CSV header fields |
| PodMetadata.FieldsInHeaderOrder | pod_metadata_extractor/runtime/get_pods.py:146-167 | each written value sits under the header field that names its dictionary key |
| PodMetadata.CompleteIffValuesPresent | pod_metadata_extractor/runtime/get_pods.py:146-167 | a record has no `None` value under any header field exactly when its name, IP and node are present |
| PodMetadata.Rows | pod_metadata_extractor/runtime/get_pods.py:167 | gives one comma-joined row per record, in order; fails exactly when some record holds a `None` value |
| PodMetadata.CsvContent | pod_metadata_extractor/runtime/get_pods.py:160-173 | the file starts with the header and a newline; writing fails with a `None`-field error exactly when a record is incomplete; an empty pod list gives `name,ip,app,creation_time,node,az\n` |
| PodMetadata.HeaderReadBack | pod_metadata_extractor/runtime/get_pods.py:166 | the header is one line, and splitting it on commas gives back the six header fields |
| PodMetadata.RowsReadBack | pod_metadata_extractor/runtime/get_pods.py:146-167 | when no field holds a comma or a newline, each row is one line and splitting it on commas gives back the record's fields |
| PodMetadata.ParseWrittenFile | pod_metadata_extractor/runtime/get_pods.py:169-171 | reading the header, a newline and the newline-joined rows gives back the header fields and each row's fields; an empty body means no rows |
| PodMetadata.CsvRoundTrip | pod_metadata_extractor/runtime/get_pods.py:160-173 | reading back the written file gives the header fields and, in order, the six fields of every record, provided no field holds a comma or a newline |
| Handler.ExtractRecords | pod_metadata_extractor/runtime/get_pods.py:74-87 | succeeds exactly when the cluster was readable, with one record per listed pod in listing order; a failed node listing or a node without labels is the error reported, before the pods are looked at |
| Handler.Handle | pod_metadata_extractor/runtime/get_pods.py:67-111 | the status is 200 or 500; it is 200 exactly when both listings succeed, every pod yields a record, no value is `None` and the file is written; a failed listing or record gives the cluster-request error body |
| Handler.RecordsComplete | pod_metadata_extractor/runtime/get_pods.py:139-157 | when extraction succeeds, the cluster was readable, and the records have no `None` value exactly when every pod has a name, an IP and a node |
| Handler.UploadDoesNotAffectResponse | pod_metadata_extractor/runtime/get_pods.py:101-111 | the upload's outcome does not change the response |
| Handler.PodWithoutIpFails | pod_metadata_extractor/runtime/get_pods.py:146-167 | a pod without an IP makes the invocation answer 500; the pod is not skipped |
| Handler.PodWithoutReadyConditionFails | pod_metadata_extractor/runtime/get_pods.py:74-87 | a pod without a Ready condition makes the invocation answer 500 with the cluster-request error |
| QueryTemplate.Lines | athena_analyzer/infrastructure.py:203-204 | cuts the text into lines that keep their newlines; joining them gives back the text |
| QueryTemplate.LinesOfConcat | athena_analyzer/infrastructure.py:203-208 | cutting the concatenation of well-formed lines gives back those lines |
| QueryTemplate.CodeLines | athena_analyzer/infrastructure.py:204-208 | every kept line was in the input and is not a comment; every non-comment line is kept |
| QueryTemplate.CodeLinesOfAppend | athena_analyzer/infrastructure.py:204-208 | the filter works line by line, so the kept lines stay in their original order |
| QueryTemplate.CodeLinesIdempotent | athena_analyzer/infrastructure.py:204-208 | filtering a second time removes nothing more |
| QueryTemplate.CommentTestIsPrefixOnly | athena_analyzer/infrastructure.py:206 | a line is dropped exactly when its first character is `#`; an indented `#` line is kept verbatim |
| QueryTemplate.StripComments | athena_analyzer/infrastructure.py:201-208 | the lines of the result are exactly the template's non-comment lines, unchanged and in order |
| QueryTemplate.StripCommentsIdempotent | athena_analyzer/infrastructure.py:201-208 | removing comment lines from the result changes nothing |
| QueryTemplate.Lookup | athena_analyzer/infrastructure.py:210-215 | gives a replacement exactly for the four keyword names |
| QueryTemplate.FormatPieces | athena_analyzer/infrastructure.py:210-215 | a template made of brace-free text, `{{`, `}}` and placeholders for the four names formats successfully to the text with `{{`/`}}` undoubled and each placeholder replaced by its argument |
| QueryTemplate.Format | athena_analyzer/infrastructure.py:210-215 | text without braces formats to itself |
| QueryTemplate.FormatOkIsPieces | athena_analyzer/infrastructure.py:210-215 | whenever formatting succeeds, the template is a sequence of valid pieces (brace-free text, `{{`, `}}`, placeholders for the four names) and the result is their rendering |
| QueryTemplate.FormatRejectsUnknownField | athena_analyzer/infrastructure.py:210-215 | a placeholder for any other name makes formatting fail |
| QueryTemplate.FormatRejectsUnclosedOpen | athena_analyzer/infrastructure.py:210-215 | a single `{` with no `}` anywhere after it makes formatting fail |
| QueryTemplate.FormatRejectsSingleClose | athena_analyzer/infrastructure.py:210-215 | a single `}` that is not doubled makes formatting fail |
| QueryTemplate.PrepareQuery | athena_analyzer/infrastructure.py:193-217 | when no kept line holds a brace, the query is the template without its comment lines, whatever braces the comment lines hold |
| QueryTemplate.PrepareQueryPieces | athena_analyzer/infrastructure.py:193-217 | when the kept lines spell out valid pieces, the query is those pieces rendered |
| QueryTemplate.CommentLineIgnored | athena_analyzer/infrastructure.py:201-215 | a comment line between two brace-free code lines is dropped before formatting, so its braces never make formatting fail |
| QueryTemplate.CommentedUnknownFieldExample | athena_analyzer/infrastructure.py:201-215 | `{x}` makes formatting fail in a code line, but the same text on a `#` line gives the query without that line |
| QueryTemplate.DeployedSubstitution | athena_analyzer/infrastructure.py:210-215 | with the deployed tables and the 60-minute schedule, the placeholders become `athena-results-table`, `pods-table`, `vpc-flow-logs-table` and `60` |
| Text.SplitJoin | pod_metadata_extractor/runtime/get_pods.py:166-167 | splitting a join of separator-free parts gives back the parts |
| Text.JoinSplit | pod_metadata_extractor/runtime/get_pods.py:166-167 | joining the pieces of a split gives back the string |
| Text.NatToStringRoundTrip | athena_analyzer/infrastructure.py:214 | the decimal text of the frequency reads back as the same number |
| GlueColumns.PodColumnsMatchCsvHeader | athena_analyzer/glue_tables_columns.py:18-25 | the pod table's column names are, in order, the extractor's CSV header fields, and all six columns are strings |
| GlueColumns.ColumnNameOf | athena_analyzer/glue_tables_columns.py:27-35 | a format field `${x}` maps to the column name `x` with each `-` replaced by `_`; anything else has no column |
| GlueColumns.FlowLogsFormatFields | vpc_flow_logs/infrastructure.py:22-24 | the flow-log format is six fields separated by single spaces |
| GlueColumns.FlowLogColumnsMatchFormat | athena_analyzer/glue_tables_columns.py:28-35 | the flow-log table's columns are, in order, the fields of the flow-log format under their column names |
| GlueColumns.FlowLogColumnTypes | athena_analyzer/glue_tables_columns.py:29-34 | `start` and `bytes` are big integers; the other four columns are strings |
| GlueColumns.ResultsColumns | athena_analyzer/glue_tables_columns.py:37-41 | the results table has exactly `timestamp` (timestamp), `cross_az_traffic` (string) and `bytes_transfered` (big integer), in that order |
| Orchestrator.Successors | orchestrator_step_function/infrastructure.py:97-108 | the Fail state has no successor; a task has none exactly when it ends the execution; a choice can go to both of its branches |
| Orchestrator.Run | orchestrator_step_function/infrastructure.py:89-110 | every execution starts in the given state; each step goes from a defined state to one of its successors; an unfinished run has used all its fuel |
| Orchestrator.Execute | orchestrator_step_function/infrastructure.py:100-108 | every execution starts by invoking the extractor and then finishes; the query starts exactly when the status code is 200; Fail is reached exactly when another code is returned; no state is entered twice |
| Orchestrator.TerminalStates | orchestrator_step_function/infrastructure.py:97-108 | the query and Fail states are terminal, and no state leads back to the invocation |
| Orchestrator.StateMachinePaths | orchestrator_step_function/infrastructure.py:97-108 | the definition has four states and every successor is one of them; the paths are invocation only (failed invocation), invocation–check–query (status 200) and invocation–check–Fail (any other status) |
| Orchestrator.EnoughFuel | orchestrator_step_function/infrastructure.py:104-108 | three steps cover every execution; a larger step budget gives the same result |
| Pipeline.InvocationResult | pod_metadata_extractor/runtime/get_pods.py:67-111 | the invoke task yields 200 exactly when the invocation did not crash, the cluster was readable, every value was present and the file was written |
| Pipeline.ScheduledRun | orchestrator_step_function/infrastructure.py:100-107 | the query starts exactly when listing and CSV creation succeeded; otherwise a run that got a response ends in Fail |
| Pipeline.QueryRunsDespiteUploadFailure | pod_metadata_extractor/runtime/get_pods.py:101-111 | a failed upload still starts the query |
| Pipeline.UploadIrrelevant | pod_metadata_extractor/runtime/get_pods.py:105-106 | the scheduled run does not depend on the upload's outcome |
| Pipeline.ListingFailureFails | pod_metadata_extractor/runtime/get_pods.py:74-87 | a failed node or pod listing ends the run in Fail, without starting the query |

## Left out

- Kubernetes client, kubeconfig creation, S3 upload and local file I/O: these are foreign calls. The listings are inputs of type `Result`, and the write and upload outcomes are booleans (`Handler.Invocation`). A crash before the handler can answer, such as a failed kubeconfig creation at cold start, is the `crashed` flag in `Pipeline`.
- The `strftime` formatting of the Ready time: a condition carries its time already formatted, as an opaque string.
- `Duration.to_minutes()`: the frequency is a given natural number (`QueryTemplate.ScheduleMinutes`).
- The SQL template's text and the query's semantics: the `.sql` file is not part of this model, and the query runs inside Athena.
- QueryTemplate.Format: format specs (`{name:...}`), conversions (`{name!r}`), attribute and index access and nested fields are not modelled. Such a field on one of the four names is reported as an error, even though Python accepts some of them. Positional fields (`{}`, `{0}`) are errors in both.
- QueryTemplate.Format: every error is reported as unknown-field or unmatched-brace. Python's separate `KeyError`, `IndexError` and `ValueError` kinds are not told apart.
- QueryTemplate.Lines: the template is taken after text mode's universal-newline translation, so `"\r\n"` and a lone `"\r"` have already become `"\n"`. That translation is not modelled.
- Orchestrator.Execute: the query task is taken to succeed. Athena errors, retries and Lambda service errors other than a failed invocation are not modelled.
- Orchestrator.Run: a `fuel` bound limits the number of states entered. `EnoughFuel` shows that three suffice for the deployed definition.
- Logging, the response body's text (abstracted to `Handler.Body`), the `event` and `context` arguments, and the CDK resource provisioning (buckets, roles, log groups, the schedule rule) are left out.
- The pod listing's `label_selector` is applied by the cluster. The model takes the listing as it arrives. Only one pass is made; there are no multiple label conventions and no exclusion set.
- A pod without an IP is not filtered out. Its `None` IP makes CSV creation fail, which is what the code does, and the model follows the code here.
