# hosting-server: a verified model of its sequential core

This project models the small deterministic pieces of a self-hosting toolkit:

- **Helper CLI.** It edits a `.env` file (`env get` / `env set`), builds the `docker-compose logs` arguments and checks command exit statuses.
- **`log_watcher`.** It parses its comma-separated configuration lists and applies the line filter: level check AND regex check.
- **Health dashboard.** It parses `name:url` endpoint lists, keeps a latest-result-per-name status table and renders it as an HTML list.
- **Webhook gate.** It checks an `X-Hub-Signature-256` header against the lowercase hex HMAC of the body and answers 400, 401 or 200.
- **Go job queue.** Ids come from a counter. The queue is bounded FIFO and a worker drains it into a results table. Results are looked up by id.
- **WebSocket broadcast service.** It covers the reaction rules of one client session and the publish handler.
- **Deployment API and launch script.** Both load the app registry from parsed YAML records, answer list/deploy/stop, and build the `docker compose` argument vectors.
- **Backup jobs.** `backup_scheduler` builds the timestamped dump path, derives the `.sql.gz` path and orders its steps. `mongo_backup` builds the archive path and the `mongodump` arguments.

Anything outside the program is passed in as a parameter:

- the file system, the processes it starts, the network and the clock;
- regular expressions;
- HMAC-SHA256.

Each service is one module:

- `HelperCli` and `EnvFile`
- `LogWatcher`
- `HealthDashboard`
- `Webhook`
- `JobQueue`
- `WsBroadcast`
- `DeploymentApi` and `LaunchApps` (both use `AppRecords`)
- `BackupScheduler` and `MongoBackup` (both use `Clock`)

Shared pieces live in `Base`, `Text` and `Seqs`:

- `Base` has the option/result types and exit statuses.
- `Text` covers Rust's `split`, `lines`, `trim` and ASCII case mapping, decimal formatting, `parse::<u64>` and Go's `strconv.Atoi`.
- `Seqs` has filter and filter-map.

Code that changes state step by step is modelled as methods with loops, proved against the function that specifies it:

- `env_set` and `env_get`;
- the dashboard table and HTML loop, as a class;
- the job queue, as a class;
- the session loop;
- the registry loaders;
- the launch loop.

The backup run is a method too. It is straight-line code that returns at the first failed step, and it records each file effect in a trace.

Code that is a chain of expressions is modelled as functions, with lemmas for the properties.

## Model

| member | source | states |
|---|---|---|
| HelperCli.RunCommand | cli_tools/custom_cli_tool/src/main.rs:33-39 | Ok exactly when the command started and exited successfully; spawn failure and non-zero exit are distinct errors, a signal carries no code |
| HelperCli.LogsArgs | cli_tools/custom_cli_tool/src/main.rs:46-52 | arguments are `logs -f`, followed by the service name exactly when one is given |
| HelperCli.EnvCommand | cli_tools/custom_cli_tool/src/main.rs:114-126 | `set` with key and value writes exactly the rewrite-or-append text of `env_set`, which reads back the value; `get` prints the lookup; the missing-argument and unknown-action messages otherwise |
| EnvFile.FirstIndex | cli_tools/custom_cli_tool/src/main.rs:76-80 | the index of the first line starting with `key=`, no earlier line has that prefix |
| EnvFile.FirstIndexAt | cli_tools/custom_cli_tool/src/main.rs:76-81 | a scan that passed no key line and stops at a key line (or the end) stopped at the first one |
| EnvFile.FirstValue | cli_tools/custom_cli_tool/src/main.rs:76-82 | "Key not found" iff no line has the `key=` prefix; a found value is the rest of some `key=value` line |
| EnvFile.GetSpec | cli_tools/custom_cli_tool/src/main.rs:74-84 | `env_get` on the file text, a missing file read as empty; specified by `FirstValue` (not found iff no key line, else the first key line's value) and by `EnvGet` |
| EnvFile.EnvGet | cli_tools/custom_cli_tool/src/main.rs:74-84 | the scanning loop with early return equals the lookup specification (missing file as empty) |
| EnvFile.SetSpec | cli_tools/custom_cli_tool/src/main.rs:86-104 | `env_set`'s written text; specified by `SetLinesShape`, `SetKeepsOtherLines`, `EnvRoundTrip` and `EnvSetIdempotent`, and computed by `EnvSet` |
| EnvFile.EnvSet | cli_tools/custom_cli_tool/src/main.rs:86-104 | the pass, the append when nothing matched and the join equal the rewrite-or-append specification |
| EnvFile.PushLines | cli_tools/custom_cli_tool/src/main.rs:87-98 | the push loop yields every line rewritten, and `found` is set iff some line holds the key |
| EnvFile.RewriteAt | cli_tools/custom_cli_tool/src/main.rs:90-96 | every line with the `key=` prefix becomes `key=value`, every other line is kept, same count |
| EnvFile.SetLinesShape | cli_tools/custom_cli_tool/src/main.rs:90-101 | with a matching line the result is the rewritten lines; otherwise the old lines plus exactly one `key=value` at the end |
| EnvFile.SetKeepsOtherLines | cli_tools/custom_cli_tool/src/main.rs:94-96 | lines without the prefix survive verbatim and in their original order |
| EnvFile.RewriteKeepsOtherLines | cli_tools/custom_cli_tool/src/main.rs:94-96 | the rewrite alone keeps the other lines verbatim and in order |
| EnvFile.SetLinesKeyLines | cli_tools/custom_cli_tool/src/main.rs:90-101 | after a set, every line carrying the key is exactly `key=value` and there is at least one |
| EnvFile.EnvRoundTrip | cli_tools/custom_cli_tool/src/main.rs:77-102 | for a key and value without line breaks (value not ending in CR), `env get` after `env set` yields the value |
| EnvFile.SetLinesFixedPoint | cli_tools/custom_cli_tool/src/main.rs:90-101 | setting the same key and value again on the resulting line list changes nothing |
| EnvFile.EnvSetIdempotent | cli_tools/custom_cli_tool/src/main.rs:102 | on a canonical file, writing the same `env set` twice gives the file of one write; canonical means no line still ends in a carriage return after `lines()` and there is no trailing blank line |
| EnvFile.EnvSetNotIdempotentOnTrailingBlankLine | cli_tools/custom_cli_tool/src/main.rs:90-102 | `K=x` then two newlines becomes `K=v` plus one newline, which a second set turns into `K=v`: not idempotent in general |
| EnvFile.EnvSetStripsInnerCarriageReturn | cli_tools/custom_cli_tool/src/main.rs:76-102 | `O=1` plus a carriage return reads `O` as `1` plus the carriage return; after `env set K v` it reads `1`, and a second set rewrites the file again: neither idempotence nor other-key stability holds on such a file |
| EnvFile.DistinctKeysDistinctLines | cli_tools/custom_cli_tool/src/main.rs:77-91 | a line of key `AB` never carries key `A` when keys hold no `=` |
| EnvFile.EnvSetOtherKeyUnchanged | cli_tools/custom_cli_tool/src/main.rs:91-96 | on a canonical file, with both keys free of `=`, setting one key leaves the lookup of the other key unchanged |
| EnvFile.SetLinesOtherKeyLines | cli_tools/custom_cli_tool/src/main.rs:91-100 | after a set, a line holds another key iff its original did, and then it is unchanged; an appended line never holds it |
| EnvFile.SameKeyLinesSameValue | cli_tools/custom_cli_tool/src/main.rs:76-82 | line lists with a key's lines at the same places and with the same text give the same lookup |
| EnvFile.OnlyEntryFound | cli_tools/custom_cli_tool/src/main.rs:76-80 | when every line for the key is `key=value`, the lookup finds exactly `value` |
| EnvFile.LinesOfKeyLines | cli_tools/custom_cli_tool/src/main.rs:76-102 | reading the written lines back keeps a key line, all of them still `key=value` |
| Text.Split | services/log_watcher/src/main.rs:19 | `split`: at least one part, no part holds the separator |
| Text.JoinSplit | cli_tools/custom_cli_tool/src/main.rs:102 | joining the split parts with the separator gives back the text |
| Text.SplitJoin | cli_tools/custom_cli_tool/src/main.rs:102 | splitting separator-free parts after a join gives back the parts |
| Text.SplitConcat | services/log_watcher/src/main.rs:19 | splitting `a,b` is splitting `a` followed by splitting `b` |
| Text.Lines | cli_tools/custom_cli_tool/src/main.rs:76 | `lines`: no line contains a line feed |
| Text.LinesOfJoin | cli_tools/custom_cli_tool/src/main.rs:90-102 | the lines of a `\n`-join are its pieces with one CR stripped and a final empty piece dropped |
| Text.TrimStart | services/log_watcher/src/main.rs:20 | removes exactly the leading Unicode white space |
| Text.TrimEnd | services/log_watcher/src/main.rs:20 | removes exactly the trailing Unicode white space |
| Text.AsciiLower | services/log_watcher/src/main.rs:26 | character-wise lowering of `A`-`Z`, everything else kept |
| Text.AsciiLowerIdempotent | services/log_watcher/src/main.rs:26 | lowering twice equals lowering once |
| Text.AsciiLowerOfUpper | services/log_watcher/src/main.rs:91 | lowering an upper-cased text equals lowering the text |
| Text.NatToStringValue | services/go_job_queue/main.go:46-51 | the decimal digits of a number read back as that number |
| Text.ParseU64 | services/log_watcher/src/main.rs:37 | a parsed value is below 2^64 |
| Text.ParseU64OfNatToString | services/log_watcher/src/main.rs:37 | every u64 written in decimal, with or without `+`, parses back |
| Text.Atoi | services/go_job_queue/main.go:51 | a parsed id lies in the int64 range |
| Text.AtoiOfNatToString | services/go_job_queue/main.go:51 | every int64 written in decimal, with or without a minus sign, parses back |
| Seqs.Filter | services/log_watcher/src/main.rs:20 | keeps exactly the elements that pass, no more elements than before |
| Seqs.FilterAppend | services/log_watcher/src/main.rs:19-22 | filtering preserves order across a concatenation |
| Seqs.FilterNone | services/log_watcher/src/main.rs:20 | nothing passes, nothing is kept |
| Seqs.FilterMap | services/log_watcher/src/main.rs:32 | every output is what some input maps to; every input that maps contributes |
| Seqs.FilterMapAppend | services/healthcheck_dashboard/src/main.rs:51-54 | filter-map preserves order across a concatenation |
| LogWatcher.ParseFiles | services/log_watcher/src/main.rs:17-22 | keeps exactly the list entries that are not blank after trimming, untrimmed |
| LogWatcher.LowerTrimmed | services/log_watcher/src/main.rs:26 | each entry trimmed and lowercased, one per entry |
| LogWatcher.ParseLevels | services/log_watcher/src/main.rs:23-28 | every level is a non-empty trimmed-lowercased entry, and every such non-empty entry is a level |
| LogWatcher.ParsedLevelsAreLowerCase | services/log_watcher/src/main.rs:26 | parsed levels are already lowercase |
| LogWatcher.ParsePatterns | services/log_watcher/src/main.rs:29-33 | patterns are the entries that compiled after trimming; entries that fail to compile are dropped, never an error |
| LogWatcher.ParseInterval | services/log_watcher/src/main.rs:35-39 | the parsed number of milliseconds, 1000 when missing or not a u64 |
| LogWatcher.FilesOfJoinedList | services/log_watcher/src/main.rs:17-22 | file parsing keeps list order |
| LogWatcher.PatternsOfJoinedList | services/log_watcher/src/main.rs:29-33 | pattern parsing keeps list order |
| LogWatcher.AnyContained | services/log_watcher/src/main.rs:91 | true iff some level is a substring |
| LogWatcher.AnyMatch | services/log_watcher/src/main.rs:96 | true iff some pattern matches |
| LogWatcher.LevelMatch | services/log_watcher/src/main.rs:88-92 | passes with no levels; otherwise iff some level occurs in the lowercased line |
| LogWatcher.PatternMatch | services/log_watcher/src/main.rs:93-97 | passes with no patterns; otherwise iff some pattern matches the line |
| LogWatcher.LineMatches | services/log_watcher/src/main.rs:87-99 | exactly the conjunction of the level check and the regex check |
| LogWatcher.LevelMatchIgnoresCase | services/log_watcher/src/main.rs:26-91 | with parsed levels, a line and its upper-cased form match alike |
| LogWatcher.UnsetRegexPassesEveryLine | services/log_watcher/src/main.rs:29-97 | an unset pattern list compiles the empty pattern, so the regex check passes wherever it matches |
| LogWatcher.Startup | services/log_watcher/src/main.rs:47-50 | nothing is watched iff the file list is empty; otherwise exactly the listed files |
| LogWatcher.BlankFilesWatchNothing | services/log_watcher/src/main.rs:17-50 | an unset or all-blank file list leads to the early exit |
| HealthDashboard.SplitEndpoint | services/healthcheck_dashboard/src/main.rs:52-53 | no endpoint iff the entry has no `:`; otherwise name, `:` and url rebuild the entry, and the name has no `:` |
| HealthDashboard.SplitEndpointAtFirstColon | services/healthcheck_dashboard/src/main.rs:52-53 | the split is at the first colon; later colons stay in the url |
| HealthDashboard.EndpointSources | services/healthcheck_dashboard/src/main.rs:51-54 | every parsed endpoint is read from some list entry |
| HealthDashboard.ParseEndpoints | services/healthcheck_dashboard/src/main.rs:51-54 | endpoints come from list entries; every entry with a colon yields one, entries without are dropped |
| HealthDashboard.ConfiguredEndpoints | services/healthcheck_dashboard/src/main.rs:49-54 | the configured list, or the default list when unset |
| HealthDashboard.ParseIntervalSecs | services/healthcheck_dashboard/src/main.rs:50 | parsed seconds, 10 when missing or unparseable |
| HealthDashboard.EndpointsOfJoinedList | services/healthcheck_dashboard/src/main.rs:51-54 | endpoints keep the order of the input list |
| HealthDashboard.SingleEndpoint | services/healthcheck_dashboard/src/main.rs:51-54 | one colon-separated entry parses to exactly that endpoint |
| HealthDashboard.DefaultEndpointsParse | services/healthcheck_dashboard/src/main.rs:49-54 | the default list parses to `web`→`http://web:3000/` then `api`→`http://api:8000/health` |
| HealthDashboard.StatusOf | services/healthcheck_dashboard/src/main.rs:36-40 | ok iff a response came back with a 2xx status; a failed request is not ok; the elapsed time is recorded |
| HealthDashboard.ApplyRound | services/healthcheck_dashboard/src/main.rs:35-41 | the table after one round of checks; specified by `RoundKeepsOtherNames`, `RoundLatestWins` and `RoundKeys`, and computed by `StatusBoard.CheckRound` |
| HealthDashboard.RoundKeepsOtherNames | services/healthcheck_dashboard/src/main.rs:35-41 | a check round leaves the entries of unchecked names unchanged |
| HealthDashboard.RoundLatestWins | services/healthcheck_dashboard/src/main.rs:40 | a name's entry after a round is the status of its last check in that round |
| HealthDashboard.RoundKeys | services/healthcheck_dashboard/src/main.rs:40 | after a round the table holds a name iff it held it before or the name was checked |
| HealthDashboard.StatusBoard.Record | services/healthcheck_dashboard/src/main.rs:40 | the table with the name's entry overwritten, nothing else |
| HealthDashboard.StatusBoard.CheckRound | services/healthcheck_dashboard/src/main.rs:35-41 | the loop's table equals the round specification |
| HealthDashboard.StatusBoard.Dashboard | services/healthcheck_dashboard/src/main.rs:18-26 | header, then one item per table entry in the given iteration order, then footer |
| HealthDashboard.ItemColor | services/healthcheck_dashboard/src/main.rs:22-23 | an item is rendered green iff its status is ok |
| HealthDashboard.ItemsOf | services/healthcheck_dashboard/src/main.rs:21-24 | one item per name, in order, from that name's table entry |
| HealthDashboard.DashboardOneItemPerEntry | services/healthcheck_dashboard/src/main.rs:21-24 | for an iteration order that lists each table key once, exactly one item per table entry |
| Webhook.HeaderToStr | services/webhook_handler/src/main.rs:22 | a header value is text iff every byte is visible ASCII or a tab, and then it is those characters |
| Webhook.HexEncode | services/webhook_handler/src/main.rs:42 | two lowercase hex digits per byte |
| Webhook.HexRoundTrip | services/webhook_handler/src/main.rs:42 | decoding the hex encoding gives back the bytes |
| Webhook.HexEncodeIsLower | services/webhook_handler/src/main.rs:42 | the encoding is already lowercase |
| Webhook.TrimStartMatches | services/webhook_handler/src/main.rs:43 | the result is a suffix that no longer starts with the prefix |
| Webhook.TrimRepeatedPrefix | services/webhook_handler/src/main.rs:43 | any number of leading `sha256=` copies are all removed |
| Webhook.EqIgnoreAsciiCaseIffLower | services/webhook_handler/src/main.rs:44 | ASCII case-insensitive equality is equality after lowering |
| Webhook.VerifySignature | services/webhook_handler/src/main.rs:38-45 | `verify_signature` with the HMAC as a parameter; specified by `VerifySignatureIff` and `AcceptedSignatureForms` |
| Webhook.VerifySignatureIff | services/webhook_handler/src/main.rs:38-45 | accepted iff the signature, stripped of all `sha256=` prefixes, equals the hex HMAC ignoring ASCII case |
| Webhook.HexNotPrefixed | services/webhook_handler/src/main.rs:43 | a hex digest never starts with `sha256=`, so a bare digest is left intact |
| Webhook.UpperHexChars | services/webhook_handler/src/main.rs:44 | upper-casing a lowercase hex text gives hex digits |
| Webhook.AcceptedSignatureForms | services/webhook_handler/src/main.rs:38-45 | the digest, lower or upper case, behind any number of prefixes (none included) is accepted |
| Webhook.HandleWebhook | services/webhook_handler/src/main.rs:17-36 | 400 iff the header is missing or not text, 401 iff present but wrong, 200 iff valid; the script runs only on 200 |
| JobQueue.StoreAll | services/go_job_queue/main.go:29-34 | the results after the worker processed some jobs in order; specified by `StoreAllKeepsOthers` and `StoreAllStores`, and computed by `Queue.Drain` |
| JobQueue.StoreAllKeepsOthers | services/go_job_queue/main.go:30-33 | processing jobs leaves the results of other ids unchanged |
| JobQueue.StoreAllStores | services/go_job_queue/main.go:31-32 | each processed job's id maps to `processed: ` plus its data |
| JobQueue.ResultStatus | services/go_job_queue/main.go:52-61 | 400 bad id, 202 not ready, 200 result |
| JobQueue.Queue.constructor | services/go_job_queue/main.go:71 | the channel starts empty, with the counter at zero and no results |
| JobQueue.Queue.Enqueue | services/go_job_queue/main.go:36-47 | a bad payload answers 400 and changes nothing; otherwise the counter grows by one, the job takes it, joins the queue tail and is echoed back |
| JobQueue.Queue.ProcessNext | services/go_job_queue/main.go:30-33 | takes the queue head and stores its processed text under its id, nothing else changes |
| JobQueue.Queue.Drain | services/go_job_queue/main.go:29-34 | the worker loop empties the queue in FIFO order into the results table |
| JobQueue.Queue.Lookup | services/go_job_queue/main.go:49-63 | non-integer id is bad, missing id is not ready, otherwise that id with its stored text |
| JobQueue.IdsIncrease | services/go_job_queue/main.go:42-43 | issued ids strictly increase |
| JobQueue.ProcessedJobReadsBack | services/go_job_queue/main.go:50-59 | the decimal id of a processed job reads back `processed: ` plus its data |
| JobQueue.PendingJobNotReady | services/go_job_queue/main.go:56-61 | a job still in the queue has no result yet |
| WsBroadcast.Texts | services/ws_broadcast/src/main.rs:25 | the received messages, at most one per event |
| WsBroadcast.Sent | services/ws_broadcast/src/main.rs:25 | the texts sent, at most one per action |
| WsBroadcast.SentAppend | services/ws_broadcast/src/main.rs:21-33 | sending preserves order across a concatenation |
| WsBroadcast.Session | services/ws_broadcast/src/main.rs:19-33 | one client session's actions; specified by `SessionShape`, `SentUpToFirstStop` and `SentAllWithoutStop`, and computed by `ClientConnection` |
| WsBroadcast.ReactionShape | services/ws_broadcast/src/main.rs:21-33 | the loop never subscribes again, and closing is its last action |
| WsBroadcast.SessionShape | services/ws_broadcast/src/main.rs:19-34 | subscribe exactly once, first; close at most once, last |
| WsBroadcast.SentUpToFirstStop | services/ws_broadcast/src/main.rs:21-33 | messages are sent in order up to the first failed send, channel error (lag included), socket error or end, then the session closes and sends nothing more |
| WsBroadcast.SentAllWithoutStop | services/ws_broadcast/src/main.rs:25-30 | with no stopping event, every received message is sent in order and inbound frames are ignored |
| WsBroadcast.ClientConnection | services/ws_broadcast/src/main.rs:19-34 | the break/continue loop equals the session specification |
| WsBroadcast.Hub.constructor | services/ws_broadcast/src/main.rs:44 | no receivers, nothing delivered |
| WsBroadcast.Hub.Subscribe | services/ws_broadcast/src/main.rs:20 | one more receiver, positioned at the end of the log |
| WsBroadcast.Hub.Unsubscribe | services/ws_broadcast/src/main.rs:19-34 | one receiver fewer, log unchanged |
| WsBroadcast.Hub.Publish | services/ws_broadcast/src/main.rs:36-39 | always answers `ok`; the message is delivered only when at least one receiver is subscribed at publish time |
| DeploymentApi.Names | services/deployment_api/main.py:24 | the keys in insertion order |
| DeploymentApi.Get | services/deployment_api/main.py:29 | absent iff the name is not a key; otherwise the file stored with it |
| DeploymentApi.Put | services/deployment_api/main.py:18 | keys keep their position; a new key goes last |
| DeploymentApi.PutGet | services/deployment_api/main.py:18 | after storing, the name reads the new file and every other name is unchanged |
| DeploymentApi.PutKeepsDistinct | services/deployment_api/main.py:18 | keys stay distinct |
| DeploymentApi.Register | services/deployment_api/main.py:14-18 | non-`.yaml` files and records without a compose file change nothing; bad YAML, a non-mapping and a missing name are errors; otherwise name → compose file is stored |
| DeploymentApi.RegistryOf | services/deployment_api/main.py:11-19 | `load_registry`'s result; specified by `OnlyYamlFilesRead`, `UnregisteredNameKept`, `LaterFileWins` and `LoadedRegistryWellFormed`, and computed by `LoadRegistry` |
| DeploymentApi.LoadRegistry | services/deployment_api/main.py:11-19 | the loading loop equals the registry specification |
| DeploymentApi.OnlyYamlFilesRead | services/deployment_api/main.py:13-14 | the registry depends only on the `.yaml` files |
| DeploymentApi.UnregisteredNameKept | services/deployment_api/main.py:17-18 | a name no file registers keeps its earlier entry |
| DeploymentApi.LaterFileWins | services/deployment_api/main.py:18 | with duplicate names the later file in listing order wins |
| DeploymentApi.RegistryWellFormed | services/deployment_api/main.py:17-18 | names stay distinct and every stored compose file is non-empty |
| DeploymentApi.LoadedRegistryWellFormed | services/deployment_api/main.py:11-19 | a loaded registry has distinct names and non-empty files |
| DeploymentApi.PutFilesNonEmpty | services/deployment_api/main.py:17-18 | storing a non-empty file keeps all files non-empty |
| DeploymentApi.StatusCode | services/deployment_api/main.py:31 | an error's own code, 200 otherwise |
| DeploymentApi.ListApps | services/deployment_api/main.py:22-24 | the registry's names, or a server error when loading fails |
| DeploymentApi.ListAppsNamesRegistered | services/deployment_api/main.py:22-24 | lists a name iff it is registered, each once |
| DeploymentApi.Control | services/deployment_api/main.py:29-33 | 404 and no command for an unknown app or empty file; otherwise the command runs and the reply is success or a server error by its exit status |
| DeploymentApi.Deploy | services/deployment_api/main.py:27-33 | a command runs iff the app is registered, and it is `docker compose -f <file> up -d --build`; unknown is 404; `deployed` with the name iff the command succeeded |
| DeploymentApi.Stop | services/deployment_api/main.py:36-42 | a command runs iff the app is registered, and it is `docker compose -f <file> down`; unknown is 404; `stopped` with the name iff the command succeeded |
| LaunchApps.Action | scripts/launch_apps.py:25 | the first argument, `up` when none is given |
| LaunchApps.DocsOf | scripts/launch_apps.py:7-13 | at most one record per directory entry; when and with which file it fails is `DocsOfFailsAtFirstBadFile`, what it loads is `DocsOfYamlFiles` |
| LaunchApps.DocsOfYamlFiles | scripts/launch_apps.py:9-12 | the records are exactly those of the `.yaml` files, one per file, in listing order |
| LaunchApps.DocsOfFailsAtFirstBadFile | scripts/launch_apps.py:7-13 | loading fails iff some `.yaml` file does not parse, and the error names the first such file in listing order |
| LaunchApps.Map | scripts/launch_apps.py:12 | one record per file, in order |
| LaunchApps.LoadRegistry | scripts/launch_apps.py:7-13 | the append loop equals the loading specification |
| LaunchApps.ComposeCommand | scripts/launch_apps.py:19 | exactly `docker compose -f <file> <action> -d` |
| LaunchApps.Commands | scripts/launch_apps.py:16-19 | at most one command per app |
| LaunchApps.Steps | scripts/launch_apps.py:15-29 | the `for app in apps` loop's steps; specified by `StepsUnfold`, `RunsFollowRegistry`, `CrashIsLast` and `AllRunWithoutCrash` |
| LaunchApps.Launch | scripts/launch_apps.py:23-29 | `main`: a failed load is one `BadYaml` crash (the file given by `DocsOfFailsAtFirstBadFile`), otherwise the steps for the loaded apps; computed by `RunApps` |
| LaunchApps.RunApps | scripts/launch_apps.py:23-29 | the loop over the apps equals the launch specification |
| LaunchApps.Runs | scripts/launch_apps.py:20 | the commands run, at most one per step |
| LaunchApps.RunsAppend | scripts/launch_apps.py:27-29 | the commands of consecutive step runs are concatenated in order |
| LaunchApps.StepsUnfold | scripts/launch_apps.py:16-29 | for a named first app: announce, then its command when it has a compose file, then the rest of the registry unless the command failed |
| LaunchApps.RunsFollowRegistry | scripts/launch_apps.py:15-29 | the commands run are a prefix of the registry's commands in order: at most one per app, none without a compose file |
| LaunchApps.CrashIsLast | scripts/launch_apps.py:20-28 | a failure (missing name or failing command) is the last step: nothing runs after it |
| LaunchApps.AllRunWithoutCrash | scripts/launch_apps.py:15-29 | without a failure every app with a compose file had its command run, in registry order |
| Clock.Field | services/backup_scheduler/src/main.rs:14 | a zero-padded field of the given width |
| Clock.FieldValue | services/backup_scheduler/src/main.rs:14 | a padded field reads back as its number |
| Clock.Dashed | services/backup_scheduler/src/main.rs:14 | the `%Y-%m-%dT%H-%M-%S` text has 19 characters |
| Clock.Compact | services/mongo_backup/src/main.rs:8 | the `%Y%m%d%H%M%S` text has 14 digits |
| Clock.DashedCharacters | services/backup_scheduler/src/main.rs:14 | the dashed stamp holds only digits, `-` and `T`: no `:`, `.` or `/` |
| Clock.DashedRoundTrip | services/backup_scheduler/src/main.rs:14 | the dashed stamp reads back as its time |
| Clock.CompactRoundTrip | services/mongo_backup/src/main.rs:8 | the compact stamp reads back as its time |
| BackupScheduler.LastIndex | services/backup_scheduler/src/main.rs:29 | the last position of a character, -1 when absent |
| BackupScheduler.JoinPath | services/backup_scheduler/src/main.rs:16 | the path is the directory followed by the file name, with a `/` between them unless the directory is empty or already ends in `/` |
| BackupScheduler.FileName | services/backup_scheduler/src/main.rs:29 | the final component: has no separator and ends the path |
| BackupScheduler.FileNameOfJoin | services/backup_scheduler/src/main.rs:16 | the file name of a joined path is the name joined |
| BackupScheduler.BuildBackupPath | services/backup_scheduler/src/main.rs:13-17 | `build_backup_path` with the time as a parameter; specified by `JoinPath` and `BackupFileNameShape` |
| BackupScheduler.BackupFileNameShape | services/backup_scheduler/src/main.rs:13-17 | the built path starts with the backup directory, and its file name is `prefix_timestamp.ext`, with the timestamp in its fixed form and reading back as the time |
| BackupScheduler.GzSuffix | services/backup_scheduler/src/main.rs:29 | the stem followed by `.sql.gz` is the `.sql` name followed by `.gz` |
| BackupScheduler.WithExtension | services/backup_scheduler/src/main.rs:29 | `Path::with_extension` for a non-empty extension; specified by `SqlToSqlGz` and `GzPathAppendsGz` |
| BackupScheduler.SqlToSqlGz | services/backup_scheduler/src/main.rs:29 | replacing extension `sql` by `sql.gz` appends `.gz` |
| BackupScheduler.GzPathAppendsGz | services/backup_scheduler/src/main.rs:20-29 | the compressed path is the dump path plus `.gz` |
| BackupScheduler.BackupPostgres | services/backup_scheduler/src/main.rs:19-36 | the run dumps to the built `pg_backup` path and compresses to that path plus `.gz`, with the step guarantees below |
| BackupScheduler.DumpAndCompress | services/backup_scheduler/src/main.rs:21-35 | each of the seven steps, when it fails, ends the run at once with the steps so far and its own error (create, spawn and exit errors for the dump, an I/O error for open, gzip create, copy, finish and remove); the raw dump is removed only right after the gzip finished; success runs all seven steps in order |
| BackupScheduler.NotInAppend | services/backup_scheduler/src/main.rs:15 | a character absent from both parts is absent from the joined name |
| MongoBackup.ArchivePath | services/mongo_backup/src/main.rs:8-9 | the archive path for a time; specified by `ArchivePathShape` and `DistinctTimesDistinctArchives` |
| MongoBackup.ArchivePathShape | services/mongo_backup/src/main.rs:8-9 | the path is `dir/` plus the 14-digit stamp plus `_dump.gz` |
| MongoBackup.DistinctTimesDistinctArchives | services/mongo_backup/src/main.rs:8-9 | different times give different archive paths |
| MongoBackup.DumpArgs | services/mongo_backup/src/main.rs:10-13 | exactly `--uri <uri> --archive <path> --gzip` |
| MongoBackup.BackupMongo | services/mongo_backup/src/main.rs:7-22 | runs those arguments; success message with the path iff the dump exits successfully; spawn failure and exit status are errors |

## Left out

- File, process, network and clock effects are parameters. This covers reading and writing `.env`, running `docker-compose`, `pg_dump`, `mongodump` and scripts, `reqwest` probes, `Utc::now` and `Instant`. A command's outcome is an `ExitStatus` option, a probe's outcome a `Probe`, a time a `DateTime`.
- Regular expressions are a `compile`/`isMatch` parameter pair and HMAC-SHA256 is a `mac` parameter. Both are library code.
- Concurrency is left out:
  - the job queue's goroutine workers, the unsynchronised `idCounter++` and `sync.Map`;
  - the dashboard's shared mutex table;
  - the watcher tasks;
  - the `select!` race.

  Each is a sequential class or a sequence of events.
- Inside `tokio::sync::broadcast`, the ring buffer, receiver cursors and lag counting are left out. A session sees each receive as an event, and a lag error ends the session. The hub records the messages delivered and the number of receivers.
- Cron scheduling, the ctrl-c waits and the HTTP routing/serving of every service are left out.
- YAML parsing and directory listing order are left out. Each file is given as a parsed `Doc`, in listing order. A name or compose file that is not a string is not modelled.
- `HashMap` iteration order in the dashboard is a parameter `order`. No order is asserted for the items.
- Configuration defaults that only feed a library or a parameter of this model are not modelled: the webhook secret, the backup directories, the Mongo URI and the cron schedules. The model takes the value in use as a parameter.
- Ports and other values that are only passed to a library are not modelled. Examples are `DASHBOARD_PORT`, `WEBHOOK_PORT`, `PORT` and `WS_PORT`, plus `webhook` in `log_watcher` and its `watch_file` loop.
- `LogWatcher.ParseLevels`: `to_lowercase` is modelled as ASCII lowering. Unicode case mapping beyond `A`-`Z` is not modelled.
- `Webhook.HandleWebhook`: the script is reported as run when configured. Whether it starts is ignored, as the source ignores it.
- `JobQueue.Queue.Enqueue`: requires room in the queue. The source blocks a full queue until a worker takes a job.
- `JobQueue.ProcessedJobReadsBack`: stated for ids below 2^63. Beyond that, Go's `int` counter wraps, which is not modelled.
- `EnvFile.EnvSetIdempotent`: proved only for canonical files: no trailing blank line, and no line that still ends in a carriage return after `lines()`. `EnvFile.EnvSetNotIdempotentOnTrailingBlankLine` shows that a trailing blank line is lost at each write. `EnvFile.EnvSetStripsInnerCarriageReturn` shows that a last line ending in a carriage return loses it on the second write.
- `EnvFile.EnvSetOtherKeyUnchanged`: proved only for canonical files and keys without `=`. On a file whose last line ends in a carriage return, `EnvFile.EnvSetStripsInnerCarriageReturn` shows the other key's value losing that carriage return. With `=` in a key, one line can hold both keys.
- `EnvFile.EnvRoundTrip`: needs a key and a value without line feeds, and a value that does not end in a carriage return. Otherwise `lines()` splits or strips the written line.
- `HealthDashboard.StatusBoard.Dashboard`: the iteration order must list table keys. `HealthDashboard.DashboardOneItemPerEntry` adds that it lists each key exactly once.
- `Clock.Dashed`: years are limited to 0-9999 and seconds to 0-59. chrono's signed and five-digit years and leap seconds are not modelled.
- `BackupScheduler.JoinPath`: covers relative file names only. Absolute names replacing the directory, `..` and repeated separators are not modelled.
- `BackupScheduler.WithExtension`: covers a non-empty extension only, the only one the program passes (`sql.gz`). Rust's `with_extension("")` removes the extension without adding a dot; the model would add one.
- These parts of the repository are not part of this model:
  - `services/metrics_exporter`, `services/data_capture`, `services/static_file_proxy`;
  - `scripts/generate-nginx.py`;
  - everything under `apps/`.

  They are wrappers around libraries, templates and external services.
- The CLI's `deploy`, `backup` and `status` commands are not modelled. They are fixed commands and HTTP calls with no logic of their own.
