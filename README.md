# AirShare core, modelled in Dafny

AirShare lets devices on one local network find each other and pass a single
"held" file from one device to another. Each device broadcasts a UDP beacon
every second. The beacon carries its id, name and grab state: whether it
holds a file, and which one. Each device also listens for the beacons of
others and keeps a peer table keyed by device id. It reports a peer the
first time that peer is seen, and again whenever the peer's grab state
changes. A small HTTP server serves the shared folder (`/file/<name>`,
`/health`), and a downloader fetches a peer's file to a local path.

There are two implementations, and this project models the core of both:

- **The Go engine** (`engine/`). It is driven by line commands on standard
  input (GRAB, RELEASE, DOWNLOAD, GET_IP, LIST_FILES) and reports on
  standard output and error.
- **The Rust desktop client** (`clients/desktop/src-tauri/src/`). It does
  the same discovery and serving natively. It reports peers through a
  callback that emits Tauri events.

Modules:

- `Peers` (peers.dfy): the peer record and table shared by both sides, and
  the rule that classifies an incoming record as new, grab changed or
  silent.
- `GoDiscovery` (go_discovery.dfy): the `Discovery` object, its grab
  state, and the listener step.
  - The step is a pure function `Receive`, and `Discovery.HandleDatagram`
    is proved equal to it.
  - It is folded over runs of datagrams (`ReceiveAll`, `Discovery.Listen`)
    with exactly-once and last-writer-wins lemmas.
- `RustDiscovery` (rust_discovery.dfy): `DiscoveryState` and the listener
  step.
  - The peer IP comes from the payload, not from the sender's address.
  - Events are `(peer, isGrabUpdate)` callbacks.
- `GoFilePath` and `GoStrings`: Go's `filepath.Base` (Unix separator),
  `strings.TrimSpace` (the `unicode.IsSpace` set) and
  `strings.SplitN(s, " ", 2)`.
- `Http` and `LocalDisk`: responses, what a fetch delivered, and a disk
  whose create and write can fail.
- `GoServer` and `RustServer`: the file and health handlers as functions of
  the path and the folder, the downloaders as methods over the disk proved
  against result functions, and the demo file.
  - On the Go side the multiplexer's path cleaning and `http.ServeFile`'s
    own answers are part of the model.
  - On the Rust side the write error of the last chunk is lost, as tokio
    reports it only on a later write or flush.
- `GoEngine` (go_engine.dfy): the command loop of `main.go`, made of:
  - the tokenizer and the switch;
  - the per-line `Dispatch`, acting on a `Discovery` object;
  - the `ListenForCommands` loop, proved against the session function
    `Run`, which is `RunCommands` over the parsed lines.

## Model

| member | source | states |
|---|---|---|
| Peers.UpsertStores | engine/discovery/discovery.go:183-192 | the table write stores the new record under its id, adds no other key and leaves every other entry as it was |
| Peers.UpsertSize | engine/discovery/discovery.go:183-192 | the number of known peers grows by one exactly when the id was new |
| Peers.ReconcileIdempotent | engine/discovery/discovery.go:194-202 | a record seen again right after it was stored is classified silent and rewrites nothing |
| Peers.ClassifyCases | clients/desktop/src-tauri/src/discovery.rs:171-181 | new exactly when the id is absent; grab changed exactly when present with a different `isHolding` or `heldFile`; silent otherwise |
| Peers.Classify | engine/discovery/discovery.go:183-202 | the decision taken against the stored record: new peer, grab changed, or silent; its cases are stated by ClassifyCases |
| Peers.Upsert | engine/discovery/discovery.go:192 | the table write `peers[id] = peer`; its effect is stated by UpsertStores and UpsertSize |
| GoDiscovery.IgnoredDatagrams | engine/discovery/discovery.go:171-179 | a payload that does not decode, or one carrying the local id, leaves the table alone and prints nothing |
| GoDiscovery.ReceiveStores | engine/discovery/discovery.go:181-192 | a beacon from another device stores the peer built from the packet, with the IP of the sender's address, and touches no other key |
| GoDiscovery.ReceiveEvents | engine/discovery/discovery.go:194-202 | `[PEER_FOUND]` exactly when the sender was unknown, and then the table grows by one; `[GRAB_UPDATE]` exactly when it was known with a different grab state |
| GoDiscovery.AtMostOneEvent | engine/discovery/discovery.go:194-202 | one datagram prints at most one event line |
| GoDiscovery.ReceiveTwice | engine/discovery/discovery.go:183-202 | the same datagram handled twice in a row: the second time prints nothing and changes nothing |
| GoDiscovery.ReceivePreserves | engine/discovery/discovery.go:176-192 | the local id never becomes a key of the table, and no key is ever removed |
| GoDiscovery.BeaconRoundTrip | engine/discovery/discovery.go:114-120 | the beacon built from the identity and grab state reaches a receiver as a peer record with that state and identity |
| GoDiscovery.ReceiveAllKeys | engine/discovery/discovery.go:157-205 | after a run, X is known exactly when it was known before, or it is not the local device and sent a decodable beacon |
| GoDiscovery.FoundInStep | engine/discovery/discovery.go:194-197 | one step prints `[PEER_FOUND]` for X once when X is unknown, not local and the sender, and never otherwise |
| GoDiscovery.FoundExactlyOnce | engine/discovery/discovery.go:157-205 | over any run, `[PEER_FOUND]` is printed for X exactly once if X was unknown, is not local and sent a beacon, and never otherwise |
| GoDiscovery.LastWriterWins | engine/discovery/discovery.go:183-192 | after a run, the entry for X is the peer built from the last beacon X sent |
| GoDiscovery.Discovery.constructor | engine/discovery/discovery.go:54-66 | the given id; the host name, or "Unknown" when the query fails; an empty table; holding nothing |
| GoDiscovery.Discovery.SetGrab | engine/discovery/discovery.go:219-225 | holding exactly `filename` afterwards, whatever was held before, with the peer table untouched |
| GoDiscovery.Discovery.ClearGrab | engine/discovery/discovery.go:228-234 | not holding and the held file is "", with the peer table untouched |
| GoDiscovery.Discovery.IsHolding | engine/discovery/discovery.go:237-241 | returns the current grab state |
| GoDiscovery.Discovery.HandleDatagram | engine/discovery/discovery.go:171-203 | the new table and the printed lines are those of `Receive` on the old table; the grab state is unchanged |
| GoDiscovery.Discovery.Listen | engine/discovery/discovery.go:157-205 | the listener loop over a run of datagrams ends in the table and lines of `ReceiveAll` |
| GoDiscovery.GrabHandoff | engine/discovery/discovery.go:113-120 | when A is seen by B and then grabs a file, B prints `[PEER_FOUND]` for A not holding, then `[GRAB_UPDATE]` for A holding that file; a device never sees itself |
| GoDiscovery.PeerOf | engine/discovery/discovery.go:185-191 | the peer record built from a packet and the sender's IP; used by ReceiveStores and BeaconRoundTrip |
| GoDiscovery.BeaconOf | engine/discovery/discovery.go:114-120 | the beacon packet built from the identity and grab state; its round trip is BeaconRoundTrip |
| GoDiscovery.Receive | engine/discovery/discovery.go:171-203 | the listener step on one datagram; its behaviour is stated by IgnoredDatagrams, ReceiveStores, ReceiveEvents, AtMostOneEvent, ReceiveTwice and ReceivePreserves |
| GoDiscovery.ReceiveAll | engine/discovery/discovery.go:157-205 | the listener loop over a run of datagrams; stated by ReceiveAllKeys, FoundExactlyOnce and LastWriterWins |
| GoDiscovery.Discovery.Beacon | engine/discovery/discovery.go:113-120 | the packet the beacon sends from the object's current state; used by GrabHandoff |
| RustDiscovery.IgnoredDatagrams | clients/desktop/src-tauri/src/discovery.rs:150-160 | a payload that is not a beacon, or one carrying the local id, touches nothing and calls nothing |
| RustDiscovery.ReceiveStores | clients/desktop/src-tauri/src/discovery.rs:162-179 | any other beacon stores the peer copied from the payload, including the payload's IP, and leaves the other entries alone |
| RustDiscovery.ReceiveCalls | clients/desktop/src-tauri/src/discovery.rs:171-189 | the callback is called with `(peer, false)` exactly when the id is new, and with `(peer, true)` exactly when the grab state differs; otherwise it is not called; the event name is "peer-discovered" exactly for a new peer |
| RustDiscovery.ReceiveTwice | clients/desktop/src-tauri/src/discovery.rs:171-189 | a repeated identical packet calls nothing and leaves the table as it is |
| RustDiscovery.SourceIgnored | clients/desktop/src-tauri/src/discovery.rs:148-168 | the sender's address has no influence on the outcome |
| RustDiscovery.DiscoveryState.constructor | clients/desktop/src-tauri/src/discovery.rs:51-72 | the given id; the host name or "Unknown"; the local IP or "127.0.0.1"; holding nothing; no peers |
| RustDiscovery.DiscoveryState.SetGrab | clients/desktop/src-tauri/src/discovery.rs:74-78 | holding exactly `filename`, with peers and calls untouched |
| RustDiscovery.DiscoveryState.ClearGrab | clients/desktop/src-tauri/src/discovery.rs:80-84 | not holding and the held file is "", with peers and calls untouched |
| RustDiscovery.DiscoveryState.HandleDatagram | clients/desktop/src-tauri/src/discovery.rs:148-190 | the new table and the callback calls are those of `Receive`; the grab state is unchanged |
| RustDiscovery.FreshBeacon | clients/desktop/src-tauri/src/discovery.rs:107-116 | a fresh state beacons its id, its IP or "127.0.0.1", and its name or "Unknown", not holding; after a grab it beacons the same with the file held |
| RustDiscovery.PeerOf | clients/desktop/src-tauri/src/discovery.rs:162-168 | the peer record copied from a packet, its IP included; used by ReceiveStores |
| RustDiscovery.BeaconOf | clients/desktop/src-tauri/src/discovery.rs:107-116 | the beacon packet built from the state; used by FreshBeacon |
| RustDiscovery.CallsFor | clients/desktop/src-tauri/src/discovery.rs:183-189 | the callback calls for a classified peer; stated by ReceiveCalls |
| RustDiscovery.EventName | clients/desktop/src-tauri/src/lib.rs:75-82 | the Tauri event a callback emits, "grab-update" or "peer-discovered"; stated by ReceiveCalls |
| RustDiscovery.Receive | clients/desktop/src-tauri/src/discovery.rs:148-190 | the listener step on one datagram; stated by IgnoredDatagrams, ReceiveStores, ReceiveCalls, ReceiveTwice and SourceIgnored |
| RustDiscovery.DiscoveryState.Beacon | clients/desktop/src-tauri/src/discovery.rs:107-116 | the packet the beacon sends from the current state; stated by FreshBeacon |
| GoFilePath.BaseShape | engine/server/server.go:65 | `filepath.Base` is never empty; it is "/" exactly for a path of slashes only; otherwise it holds no slash |
| GoFilePath.BaseOfName | engine/server/server.go:65 | a slash-free name after a slash, with any trailing slashes, has that name as its base |
| GoFilePath.Base | engine/server/server.go:65 | `filepath.Base` with the Unix separator; stated by BaseShape and BaseOfName |
| GoStrings.TrimSpace | engine/main.go:60 | the trimmed line is empty, or neither starts nor ends with white space |
| GoStrings.TrimSpaceEmptyIff | engine/main.go:60-63 | the trimmed line is empty exactly when the raw line is white space only |
| GoStrings.TrimSpaceSlice | engine/main.go:60 | TrimSpace takes away a run of white space at each end and nothing else |
| GoStrings.TrimSpaceKeeps | engine/main.go:60 | a line without white space at either end is left unchanged |
| GoStrings.SplitN2 | engine/main.go:65 | one part, the whole line, exactly when there is no space; otherwise the text before the first space and the rest, which joined by that space give the line back |
| GoStrings.SplitAfterWord | engine/main.go:65-66 | a space-free word, a space and any rest split back into the word and the rest verbatim |
| GoStrings.TrimSpaceIdempotent | engine/main.go:60 | trimming a trimmed line changes nothing |
| GoServer.ServeOutcomes | engine/server/server.go:63-86 | "Invalid filename" (400) exactly when the base is "."; "File not found" (404) exactly when the name is absent; otherwise `http.ServeFile` on the name's entry, with the Content-Disposition header naming it |
| GoServer.InvalidWithoutLookup | engine/server/server.go:65-70 | the 400 answer does not depend on the directory |
| GoServer.RoutedNameIsPlain | engine/server/server.go:40-43 | every path the multiplexer passes to the file handler has a base that is one element, not empty, not "." or "..", and without a slash |
| GoServer.ServeByName | engine/server/server.go:63-86 | `GET /file/<name>` for any name the multiplexer passes on (one element, not empty, "." or "..", backslashes allowed), with or without one trailing slash, is 404 when the name is absent and otherwise `http.ServeFile` on that entry; a regular file is answered 200 with exactly its bytes and the Content-Disposition header unless the path has a ".." element or is `/file/index.html` itself |
| GoServer.EmptyNameResolvesToFile | engine/server/server.go:63-78 | `GET /file/` has the base "file" and is looked up under that name: 404 unless the directory holds "file" |
| GoServer.HealthAlwaysOk | engine/server/server.go:46-49 | `/health` answers 200 "OK" whatever the directory holds |
| GoServer.HandleFileServe | engine/server/server.go:63-86 | the file handler; stated by ServeOutcomes, InvalidWithoutLookup and ServeByName |
| GoServer.ServeFile | engine/server/server.go:85 | `http.ServeFile` on the resolved entry; stated by ServeFileOutcomes |
| GoServer.ServeFileOutcomes | engine/server/server.go:85 | 400 exactly for a ".." element; 301 exactly for a path ending in "/index.html" (to "./") or a directory without a trailing slash; 403 and 500 exactly for entries that do not open; 200 with the bytes exactly for a file; the handler's headers are kept in every answer |
| GoServer.BadRequestThroughMux | engine/server/server.go:40-43 | through the multiplexer "Invalid filename" never comes back; 400 comes exactly when the name is present and the path has a ".." element, which a clean path holds only next to a backslash |
| GoServer.IndexHtmlRedirected | engine/server/server.go:85 | only `GET /file/index.html` itself is redirected to "./", with the handler's header kept; "./" is `/file/`, which looks up the name "file" |
| GoServer.IndexHtmlWithSlashServed | engine/server/server.go:63-86 | `GET /file/index.html/` is served like any other name: 200 with the file's bytes |
| GoServer.UncleanRedirected | engine/server/server.go:40-43 | `/file/..`, `/file/../x` and `/file//x` never reach the handler: the multiplexer redirects them |
| GoServer.Health | engine/server/server.go:46-49 | the health handler; stated by HealthAlwaysOk |
| GoServer.Route | engine/server/server.go:40-46 | the multiplexer: cleaning redirect, "/health", the "/file" redirect, "/file/" prefix, else 404; stated by HealthAlwaysOk, BadRequestThroughMux, UncleanRedirected and ServeByName |
| GoServer.DownloadResult | engine/server/server.go:89-117 | the error and disk a download ends with; stated by BadStatusCreatesNothing, DownloadTouchesOnlyDest, DownloadSucceedsIff and FailedCopyLeavesPrefix |
| GoServer.BadStatusCreatesNothing | engine/server/server.go:98-100 | any status other than exactly 200 is a "bad status" error, and nothing is created |
| GoServer.DownloadTouchesOnlyDest | engine/server/server.go:89-117 | only the destination can change, and only after a 200 and a successful create |
| GoServer.DownloadSucceedsIff | engine/server/server.go:89-117 | no error exactly when the status is 200, the create worked, and the whole body arrived and was written; the destination then holds exactly the body |
| GoServer.FailedCopyLeavesPrefix | engine/server/server.go:103-113 | a failure after the create leaves a prefix of the body at the destination |
| GoServer.WithDemoFile | engine/server/server.go:120-130 | demo.txt is added as a file with its fixed text only when nothing has that name; every other entry is kept |
| GoServer.DemoFileIdempotent | engine/server/server.go:120-130 | creating the demo file twice is the same as once |
| GoServer.Server.constructor | engine/server/server.go:23-28 | directory "./shared" and port 8080 |
| GoServer.Server.CreateDemoFile | engine/server/server.go:120-130 | the directory afterwards is `WithDemoFile` of the one before |
| GoServer.Server.DownloadFile | engine/server/server.go:89-117 | the error returned and the disk afterwards are those of `DownloadResult` |
| LocalDisk.Disk.Create | engine/server/server.go:103-106 | creating truncates the destination to empty unless the system reports an error, which is returned |
| LocalDisk.Disk.Write | engine/server/server.go:110-113 | the write appends what fits; it fails with the limit's reason exactly when the data does not fit |
| LocalDisk.Accepted | engine/server/server.go:110 | what a write stores is a prefix of the data, and all of it exactly when it fits |
| RustServer.ServeFileOutcomes | clients/desktop/src-tauri/src/server.rs:88-103 | 404 "File not found: name" exactly when the path does not exist; 200 with exactly the contents when it reads; 500 when an existing path fails to read |
| RustServer.HealthCheckOk | clients/desktop/src-tauri/src/server.rs:107-109 | the health check answers 200 "AirShare Server OK" |
| RustServer.ServeFile | clients/desktop/src-tauri/src/server.rs:84-104 | the file handler; stated by ServeFileOutcomes |
| RustServer.HealthCheck | clients/desktop/src-tauri/src/server.rs:107-109 | the health handler; stated by HealthCheckOk |
| RustServer.IsSuccess | clients/desktop/src-tauri/src/server.rs:119 | `is_success`, the 2xx range; used by the download lemmas |
| RustServer.DownloadResult | clients/desktop/src-tauri/src/server.rs:112-138 | the error and disk `download_file` ends with, the write error of the last chunk lost; stated by NothingCreatedBeforeBody, DownloadSucceedsIff, FailedWriteLeavesPrefix and WriteErrorLost |
| RustServer.WriteFailureReturnedIff | clients/desktop/src-tauri/src/server.rs:132-137 | a failed write is returned exactly when a chunk boundary lies after the room and before the end of the body |
| RustServer.NothingCreatedBeforeBody | clients/desktop/src-tauri/src/server.rs:115-126 | a non-2xx status or a body that fails to read is returned as an error before the file is created |
| RustServer.DownloadTouchesOnlyDest | clients/desktop/src-tauri/src/server.rs:112-138 | only the destination can change, and only after a 2xx, a complete body and a successful create |
| RustServer.DownloadSucceedsIff | clients/desktop/src-tauri/src/server.rs:112-138 | `Ok(())` exactly when the status is 2xx, the body was read, the create worked and no write failure was returned; the destination then holds what the write stored, the whole response when it fitted |
| RustServer.FailedWriteLeavesPrefix | clients/desktop/src-tauri/src/server.rs:128-137 | a write that does not fit leaves a strict prefix of the response, as long as the room there was; its failure is returned only when another chunk follows the failing one |
| RustServer.WriteErrorLost | clients/desktop/src-tauri/src/server.rs:132-137 | a body of at most one chunk that does not fit gives `Ok(())` although the destination does not hold it |
| RustServer.WriteErrorLostExample | clients/desktop/src-tauri/src/server.rs:132-137 | one byte to a full disk: `Ok(())` and an empty file |
| RustServer.FlushedDownloadResult | clients/desktop/src-tauri/src/server.rs:132-137 | the download with the file flushed after the write; stated by FlushedDownloadSucceedsIff |
| RustServer.FlushedDownloadSucceedsIff | clients/desktop/src-tauri/src/server.rs:112-138 | with the flush, `Ok(())` exactly when the status is 2xx, the body was read, the create worked and every byte fitted; the destination then holds exactly the response |
| RustServer.FlushOnlyAddsLostError | clients/desktop/src-tauri/src/server.rs:132-137 | the flush changes nothing on disk and changes the result exactly for a failed write whose error is lost |
| RustServer.DownloadFile | clients/desktop/src-tauri/src/server.rs:112-138 | the error returned and the disk afterwards are those of `DownloadResult` |
| RustServer.WithDemoFile | clients/desktop/src-tauri/src/server.rs:36-40 | demo.txt is added with its fixed text only when no such path exists; every other entry is kept |
| RustServer.ServerState.constructor | clients/desktop/src-tauri/src/server.rs:24-45 | the shared folder is the existing one plus the demo file |
| GoEngine.SplitShape | engine/main.go:60-66 | a trimmed non-empty line splits into a non-empty word and, if any, a non-empty argument not ending in white space |
| GoEngine.Words | engine/main.go:60-66 | the trimmed line split at its first space; stated by SplitShape, WordsShape and WordsOf |
| GoEngine.DownloadArgsOf | engine/main.go:81-86 | the URL and destination of a DOWNLOAD argument; stated by DownloadArgsShape, DownloadArgsJoin and DownloadArgsSingle |
| GoEngine.Interpret | engine/main.go:68-111 | the switch on the command word; stated by InterpretNotBlank, InterpretGrab, InterpretDownload and UnknownCommandWarns |
| GoEngine.ParseCommand | engine/main.go:60-68 | the command an input line stands for; stated by BlankLines, GrabRoundTrip, DownloadRoundTrip, ReleaseWithText and ParseTrimmed |
| GoEngine.NextGrab | engine/main.go:69-78 | the grab state after a command; stated by ChangeForgetsPrevious |
| GoEngine.Respond | engine/main.go:68-111 | the lines a command prints at once; stated by UnknownCommandWarns and BlankLines |
| GoEngine.Started | engine/main.go:80-87 | the downloads a command starts; stated by DownloadEffects |
| GoEngine.DownloadReport | engine/main.go:87-93 | the line a finished download prints; stated by DownloadReportIff |
| GoEngine.WordsShape | engine/main.go:59-66 | no words exactly for a white-space-only line; otherwise a non-empty, space-free word and an optional argument, which rebuild the trimmed line |
| GoEngine.InterpretNotBlank | engine/main.go:68-111 | the switch on a word never yields a blank command |
| GoEngine.InterpretGrab | engine/main.go:69-74 | only the word GRAB grabs, and the file name is the argument |
| GoEngine.BlankLines | engine/main.go:60-63 | a line is skipped exactly when it is white space only, and then nothing changes or prints |
| GoEngine.GrabArgumentNonEmpty | engine/main.go:69-72 | a GRAB file name is never empty and never ends in white space |
| GoEngine.DownloadArgsShape | engine/main.go:83-86 | DOWNLOAD has two arguments exactly when its argument holds a space; the URL is the text before the first space, and the destination, the rest, is not empty |
| GoEngine.InterpretDownload | engine/main.go:80-86 | only the word DOWNLOAD downloads, with the arguments split from its argument |
| GoEngine.DownloadArgsSingle | engine/main.go:83-84 | an argument without a space gives no download |
| GoEngine.DownloadArgsNonEmpty | engine/main.go:80-86 | a parsed download's URL holds no space and its destination is never empty |
| GoEngine.WordsOf | engine/main.go:60-66 | a word, a space and an argument, written out, split back into that word and argument |
| GoEngine.GrabRoundTrip | engine/main.go:69-73 | "GRAB " + f grabs exactly f, inner and leading spaces included |
| GoEngine.DownloadArgsJoin | engine/main.go:83-86 | a space-free URL, a space and any destination split back into the two |
| GoEngine.DownloadRoundTrip | engine/main.go:80-86 | "DOWNLOAD url dest" gives back url and dest |
| GoEngine.DownloadOneArgumentIgnored | engine/main.go:81-95 | DOWNLOAD followed by a space and any text without a space, empty text included, asks for no download |
| GoEngine.DownloadEffects | engine/main.go:80-95 | DOWNLOAD prints nothing at once and keeps the grab state; it starts a download exactly when it has both arguments |
| GoEngine.ReleaseWithText | engine/main.go:76-78 | RELEASE followed by a space and any text whatever still releases |
| GoEngine.LowerCaseIsUnknown | engine/main.go:68-110 | command words are case-sensitive: "grab" followed by any argument is unknown |
| GoEngine.WordOfLine | engine/main.go:60-66 | a word with no space in it and no white space at either end, then a space and any text, gives that word as the command word |
| GoEngine.ParseTrimmed | engine/main.go:60 | a line and its trimmed form stand for the same command |
| GoEngine.UnknownCommandWarns | engine/main.go:109-110 | a word is unknown exactly when it is none of the five; it prints one `[WARN] Unknown command: <word>` on standard error and keeps the grab state |
| GoEngine.DownloadReportIff | engine/main.go:87-93 | `[DOWNLOAD_COMPLETE] <dest>` on standard output exactly when the download returned no error; otherwise a line on standard error |
| GoEngine.RunCommands | engine/main.go:59-112 | the session over a sequence of commands; stated by RunCommandsConsistent, RunWithoutChangeKeepsGrab and RunLastChangeWins |
| GoEngine.Run | engine/main.go:56-113 | the session over input lines: the commands they parse to, run in order; stated by RunKeepsConsistent and ListenForCommands |
| GoEngine.RunCommandsConsistent | engine/main.go:69-78 | commands that never grab an empty name keep "holding exactly when a file is held" |
| GoEngine.RunKeepsConsistent | engine/main.go:59-112 | through the command channel, the engine holds exactly when it has a held file |
| GoEngine.ChangeForgetsPrevious | engine/main.go:69-78 | GRAB of a file and RELEASE set the grab state whatever it was; other commands keep it |
| GoEngine.RunWithoutChangeKeepsGrab | engine/main.go:59-112 | with no GRAB of a file and no RELEASE, the grab state after a run is the one before it |
| GoEngine.RunLastChangeWins | engine/main.go:59-112 | the grab state after a run is the one set by its last GRAB of a file or RELEASE |
| GoEngine.ListFileLines | engine/main.go:100-107 | one `[FILE] <base>` line per globbed path, in order |
| GoEngine.Execute | engine/main.go:68-111 | the switch acts on the discovery object: its grab state, the lines printed and the downloads started are those of the command; the peer table is untouched |
| GoEngine.Dispatch | engine/main.go:60-111 | one input line acts as the command it parses to |
| GoEngine.ListenForCommands | engine/main.go:56-113 | over the input lines, the grab state, the printed lines and the started downloads are those of `Run` |

## Left out

- Sockets, timers, goroutines, tasks and locks. The beacon ticker and the sockets are not modelled. Each listener is modelled as the sequence of datagrams it receives. Each lock section is atomic, because the source takes the lock around it.
- JSON encoding and decoding of beacons. A datagram's payload is modelled as already decoded, or as not decodable. Printed peers are modelled as `Event` values, not as their JSON text.
- The Rust listener loop over many datagrams. Only its body, `DiscoveryState.HandleDatagram`, is modelled. The fold and its lemmas are proved for the Go listener only.
- The diagnostic log lines (`[Discovery] …`, `[Server] …`, `[INFO] …`). They are not modelled. The lines `listenForCommands` prints in reply to commands are modelled.
- `main`'s start-up and shutdown in main.go:19-53 (greetings, signal wait, `Stop`), and the Tauri setup in lib.rs. These only start the modelled parts.
- `GetLocalIP`, `os.Hostname`, the uuid, the current directory and `filepath.Glob`. These are operating-system queries, so they are parameters: the constructor arguments and `Env`.
- GoServer.HandleFileServe: the multiplexer's redirect for an unclean path is modelled without its Location (the cleaned path) and with a body left open; `http.ServeFile` is modelled by its answers for the entry the name resolved to (400 for "..", 301 for "/index.html" and for a directory, 403, 500, 200), but not the page it writes for a directory (an index.html inside it or a listing), conditional and range requests, Content-Type and the other headers it adds, or percent-encoding of the path. The folder is a map from names, so a base of ".." or "/" is looked up as a key; `filepath.Join` would resolve it to the parent directory or to the shared directory itself. No path the multiplexer passes on has such a base (GoServer.RoutedNameIsPlain), but GoServer.ServeOutcomes also covers paths that do not come through it.
- GoServer.Route: a request path is taken as already decoded, and only the GET handling of each pattern is modelled.
- RustServer.ServeFile: axum's routing, CORS and percent-decoding are not modelled, and the folder is a map from names, so `PathBuf::join` with a name that holds a separator, "..", or an absolute path is not resolved against directories.
- Windows path separators in `filepath.Base`. Only the Unix separator '/' is modelled.
- `bufio.Scanner`'s line-length limit and the order in which background downloads finish. The downloads a session starts are modelled in order. Their reports come from `DownloadReport`.
- `os.MkdirAll` and `create_dir_all`, and a failing demo-file write. The Rust constructor discards that error, and the Go version only logs it. The demo file is modelled as written whenever it was absent.
- GoServer.DownloadResult: `io.Copy` is modelled as a write that stores a prefix of the body, failing on the disk's limit or on a body error. Interleaved partial reads are not modelled.
- RustServer.DownloadResult: a disk write is modelled as storing what fits and failing once the room is used; tokio's chunking is modelled by its 2 MiB chunk size only, and a background write that fails for some other reason, or partly, is not modelled.
- GoStrings.IsSpace: characters are Dafny `char`s. Invalid UTF-8 in an input line is not modelled.

## Findings

| source | as written | input that shows it | evidently intended | confidence | as-written member | corrected member |
|---|---|---|---|---|---|---|
| clients/desktop/src-tauri/src/server.rs:132-137 | `write_all` on a tokio file is awaited, then the file is dropped without `flush()`; the failure of the background write of the last chunk is never returned, so `Ok(())` comes back | status 200, body `[7]`, a disk with no room left: `Ok(())` and an empty destination | the download fails with "Failed to write file" whenever a byte did not reach the file (flush awaited after `write_all`, its error mapped the same way) | medium, not executed | RustServer.WriteErrorLost | RustServer.FlushedDownloadSucceedsIff |

## Notes on the source

- The Go handler refuses "" and "." with 400. `filepath.Base` never returns "", so only "." can be refused (GoServer.ServeOutcomes), and through the multiplexer neither reaches it (GoServer.BadRequestThroughMux).
- `GET /file/` is looked up under the name "file", since `filepath.Base` drops the trailing slash (GoServer.EmptyNameResolvesToFile).
- A ".." element is not refused by the handler's own check; the multiplexer redirects it, or `http.ServeFile` refuses it with 400 when a backslash separates it (GoServer.UncleanRedirected, GoServer.BadRequestThroughMux).
- `DOWNLOAD  x y`, with two spaces, passes an empty URL to the downloader (GoEngine.DownloadArgsShape).
- The two downloaders differ:
  - Go accepts exactly status 200; Rust accepts any 2xx.
  - Go creates the file before reading the body, so a body error leaves a partial file.
  - Rust reads the whole body first, so a body error creates nothing.
- Peers in the two tables differ: the Go engine records the sender's address as the peer IP, while the Rust client records the IP the beacon claims.
