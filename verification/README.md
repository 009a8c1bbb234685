# SamRewritten: a Dafny model of the command protocol and the schema decoder

SamRewritten is a desktop achievement and statistics manager for Steam. It runs as
three kinds of process:

- the graphical interface;
- an orchestrator, which holds the session with the Steam client and lists the owned apps;
- one worker per opened app, which reads and writes that app's achievements and statistics.

The processes talk over pairs of pipes. Each message is framed by an 8-byte
little-endian length followed by the message's JSON text.

This project models the following parts in Dafny and proves properties about them:

- **The binary KeyValue decoder** (`KeyValue`). It reads the Steam client's statistics schema
  files: a tree of tag byte, NUL-terminated name and payload, where each level ends with an
  End tag. It is paired with a reference writer (`KeyValueWriter`). The main result is that
  decoding a written tree gives back the tree the entries describe, with a later sibling
  replacing an earlier sibling of the same name.
- **The IPC layer** (`IpcTypes`): the message types, `sam_serialize`/`from_recver` framing
  over an abstract JSON codec, and replies converted to results. Framing round-trips, a
  stream of frames is read back in order, and each failure has its own error.
- **The orchestrator** (`Orchestrator`). Its session is opened lazily and retried. It keeps
  a map from app id to worker, relays worker replies byte for byte, and has a transition
  rule per command. Its loop exits with 0 exactly at the first Shutdown.
- **The worker** (`AppWorker`). It checks app ids, dispatches commands to the stats manager
  (a parameter), and answers every command it reads with exactly one reply. With a failed
  connection, every command is answered with the connection error. This includes Shutdown,
  so such a worker does not stop until its input ends.
- **The interface side of a request** (`Request`): request-to-command conversions and the
  reply-reading path. A reply that does not decode is `SocketCommunicationFailed`, where
  `from_recver` says `SerializationFailed`.
- **Command-line parsing** (`Arguments`) for the worker/orchestrator mode and the GUI mode.
- **Stat flags and stats** (`StatDefinitions`): the protected-value rule and the flags
  derived from a permission.
- **The app listing** (`AppLister`): the app-type parse/print round trip, `get_app`, the
  image URL fallback order, the owned-app filter, and when the cached catalogue is
  downloaded again.
- **The app-data key strings** (`AppDataKeys`).

Support modules:

| module | models |
|---|---|
| `Common` | `Option`, `Result` and the integer widths |
| `LittleEndian` | `to_le_bytes`/`from_le_bytes` |
| `Decimal` | Rust's integer `FromStr` and `to_string` |
| `Utf8` | UTF-8 decoding |
| `Float` | `f32` as its bit pattern, with IEEE equality and `as i32` |
| `Bits` | bitwise AND/OR on naturals |

The pieces the model cannot see are parameters:

- the JSON codec;
- the Steam client and the stats manager;
- process creation;
- the catalogue download, XML parsing and cache file;
- the clock.

`from_str` lower-cases with Unicode rules. Of the characters outside ASCII, only the
Kelvin sign (U+212A) lower-cases to an ASCII letter of the four type words, so
`"JUN\u{212A}"` parses as `Junk`. The model's `LowerChar` captures exactly this.

## Model

| member | source | states |
|---|---|---|
| `KeyValue.TypeFromByte` | src/backend/key_value.rs:73-93 | bytes 0 to 8 name the nine tags, and the tag read is the one written as that byte; any other byte is a format error quoting the byte in decimal |
| `KeyValue.TypeFromTagByte` | src/backend/key_value.rs:73-93 | every tag decodes from its own byte |
| `KeyValue.Root` | src/backend/key_value.rs:132-139 | the root is named `<root>`, has no data and no children, and is valid |
| `KeyValue.Invalid` | src/backend/key_value.rs:121-129 | the lookup sentinel is invalid, has no data and no children |
| `KeyValue.Get` | src/backend/key_value.rs:142-144 | a present key gives its child; a missing key gives the invalid sentinel |
| `KeyValue.AsString` | src/backend/key_value.rs:147-159 | the sentinel and a node without data give the default; text is returned verbatim; Int32, UInt64 and Color values are printed as Rust's `to_string` prints them (a `-` only for negatives, no leading zeros), which parses back to the same number; a float's text is the float formatter's |
| `KeyValue.AsI32` | src/backend/key_value.rs:162-173 | the sentinel, no data and Color give the default; Int32 is itself; UInt64 keeps its value modulo 2^32; text must parse as an `i32` or gives the default; a NaN float gives 0 |
| `KeyValue.AsBool` | src/backend/key_value.rs:190-201 | non-zero means true for Int32, UInt64 and float (under IEEE equality with 0.0); text that parses as an `i32` is true exactly when non-zero; the sentinel, no data, Color and non-integer text give the default |
| `KeyValue.MissingKeyGivesDefaults` | src/backend/key_value.rs:142-201 | looking up a missing key and applying any accessor gives back the caller's default |
| `KeyValue.ReadExact` | src/backend/key_value.rs:240-259 | `read_exact` succeeds exactly when enough bytes remain, splitting them off the front; otherwise it is an end-of-file error |
| `KeyValue.ReadString` | src/backend/key_value.rs:271-316 | fails with end-of-file exactly when the stream has no NUL; otherwise consumes up to and including the first NUL and returns the text of the bytes before it |
| `KeyValue.ReadStringBuffered` | src/backend/key_value.rs:271-316 | the byte-at-a-time loop with its 128-byte growing buffer computes the same result as `ReadString` |
| `KeyValue.ReadAsBinary` | src/backend/key_value.rs:212-268 | a successful read consumes a non-empty prefix of the stream, keeps the node's name, data and validity, and only adds children; an empty stream is an end-of-file error |
| `KeyValue.ReadEntry` | src/backend/key_value.rs:222-261 | an entry keeps the name it was read with and is valid; only a None entry has children; a WideString entry is `UnsupportedType(WideString)` |
| `KeyValue.FixedWidthPayloads` | src/backend/key_value.rs:240-259 | Int32, Float32, Color and Pointer consume exactly 4 bytes and UInt64 exactly 8, failing with end-of-file when fewer remain; Color and Pointer both store Color data |
| `KeyValue.WideStringRejected` | src/backend/key_value.rs:237-239 | a WideString entry fails the decode once its name is read, whatever follows |
| `KeyValue.LoadAsBinary` | src/backend/key_value.rs:204-209 | a loaded tree is a valid `<root>` node without data |
| `KeyValue.SmallestStreams` | src/backend/key_value.rs:204-220 | a lone End tag loads an empty root; a first byte above 8 is rejected with that byte; an empty stream is end-of-file |
| `KeyValueWriter.ReadWrittenPayload` | src/backend/key_value.rs:230-259 | every payload the format can hold is read back as the entry's node, leaving exactly the bytes after it |
| `KeyValueWriter.ReadWrittenLevel` | src/backend/key_value.rs:212-268 | a written level, read into any node, inserts its entries in order and stops right after the level's End tag |
| `KeyValueWriter.InsertAllLastWins` | src/backend/key_value.rs:263 | after a level is inserted, each name maps to the node of its last entry; other names keep their earlier children; the node's own fields do not change |
| `KeyValueWriter.LoadWritten` | src/backend/key_value.rs:204-268 | loading a written tree, with any trailing bytes, gives the root holding exactly the tree the entries describe |
| `IpcTypes.ErrorMessagesDistinct` | src/utils/ipc_types.rs:31-44 | no two errors print the same text, and every text starts with `Sam error: ` |
| `IpcTypes.TargetApp` | src/utils/ipc_types.rs:50-63 | exactly the six per-app commands name a target app |
| `IpcTypes.IntoResult` | src/utils/ipc_types.rs:135-142 | a reply is `Ok` exactly when it is `Success`, carrying its data; an `Error` carries its error |
| `IpcTypes.IntoResultBijective` | src/utils/ipc_types.rs:135-142 | replies and results correspond one to one |
| `IpcTypes.LengthPrefix` | src/utils/ipc_types.rs:86-91 | the prefix is 8 bytes wide and reads back as the length |
| `IpcTypes.SamSerialize` | src/utils/ipc_types.rs:75-93 | the output is empty exactly when serialization fails; otherwise it is the 8-byte little-endian encoding of the message's length followed by the encoded message |
| `IpcTypes.ReadFrame` | src/utils/ipc_types.rs:100-118 | a frame is read exactly when the stream holds the 8 prefix bytes and at least the announced number of bytes after them; the stream splits into prefix, body of the announced length, and rest; a short read is `SocketCommunicationFailed` |
| `IpcTypes.FromRecver` | src/utils/ipc_types.rs:96-129 | framing failures are `SocketCommunicationFailed`; `SerializationFailed` happens exactly when a frame is read but does not decode; a read succeeds exactly when a frame is read and its body decodes, and then gives the decoded body and exactly the bytes after the frame |
| `IpcTypes.ReadFrameOfFrame` | src/utils/ipc_types.rs:86-118 | reading a frame gives back its payload and leaves what follows it |
| `IpcTypes.FromRecverSamSerialize` | src/utils/ipc_types.rs:75-129 | given a codec that round-trips, a serialized message is read back as itself whatever follows it |
| `IpcTypes.FromRecverSequence` | src/utils/ipc_types.rs:96-129 | several serialized messages in a row are read back one by one, in order, leaving the rest |
| `LittleEndian.EncodeDecode` | src/utils/ipc_types.rs:88-109 | every 8-byte prefix is the encoding of the length it announces |
| `AppDataKeys.KeyString` | src/steam_client/steam_apps_001_wrapper.rs:53-63 | every key string is non-empty and ends with a NUL |
| `AppDataKeys.KeyStringInjective` | src/steam_client/steam_apps_001_wrapper.rs:53-63 | distinct keys give distinct strings; a capsule key's language can be read back from its string |
| `StatDefinitions.ContainsNone` | src/backend/stat_definitions.rs:33-52 | every flag set contains the empty set and itself; `is_empty` holds only for the empty set |
| `StatDefinitions.ContainsAntisymmetric` | src/backend/stat_definitions.rs:46-48 | two sets that contain each other are equal |
| `StatDefinitions.ContainsIffOrAbsorbs` | src/backend/stat_definitions.rs:46-69 | `a` contains `b` exactly when `a \| b == a` |
| `StatDefinitions.OrLaws` | src/backend/stat_definitions.rs:55-69 | union is commutative, associative and idempotent, has the empty set as unit, and contains both operands |
| `StatDefinitions.ProtectedIsBitOne` | src/backend/stat_definitions.rs:268-270 | a stat is protected exactly when bit 1 of its permission's 32-bit pattern is set |
| `StatDefinitions.UnknownPermissionValues` | src/backend/stat_definitions.rs:271-273 | the unknown-permission flag is set for every permission except 0 and 2, negative values included |
| `StatDefinitions.ExtraFlagsBits` | src/backend/stat_definitions.rs:263-275 | the flags are the sum of one distinct bit per condition |
| `StatDefinitions.ExtraFlagsMeaning` | src/backend/stat_definitions.rs:263-275 | INCREMENT_ONLY, PROTECTED and UNKNOWN_PERMISSION are each set exactly when their condition holds, and no higher bit is set |
| `StatDefinitions.IntStatInfo.SetValue` | src/backend/stat_definitions.rs:251-257 | fails exactly when the stat is protected and the value would change, with the protected-stat error; on success only the value changes |
| `StatDefinitions.IntSetValueLaws` | src/backend/stat_definitions.rs:251-261 | after a set the stat is modified exactly when the new value differs from the original; setting the current value always succeeds and changes nothing; setting twice is setting once; unprotected stats always accept |
| `StatDefinitions.FloatStatInfo.SetValue` | src/backend/stat_definitions.rs:206-212 | as for integers, under IEEE equality |
| `StatDefinitions.FloatNaNLaws` | src/backend/stat_definitions.rs:206-216 | a float stat holding NaN counts as modified, and when protected it rejects every value |
| `StatDefinitions.SetWrappedValue` | src/backend/stat_definitions.rs:151-184 | setting the value of the stat a `StatInfo` wraps keeps its id, display name, permission and flags, and the stat is then modified exactly when the new value differs from the original |
| `StatDefinitions.StatInfo.Extra` | src/backend/stat_definitions.rs:180-185 | the flags of either kind of stat: PROTECTED exactly when protected, UNKNOWN_PERMISSION exactly when the permission is neither 0 nor 2, INCREMENT_ONLY exactly when increment-only |
| `AppLister.ParseType` | src/backend/app_lister.rs:76-88 | succeeds exactly when the string lower-cases to one of `app`, `mod`, `demo` or `junk`, giving that type; otherwise the error quotes the string |
| `AppLister.ParseTypeUnique` | src/backend/app_lister.rs:79-87 | any string that lower-cases to a type's word parses as that type |
| `AppLister.ParseTypeName` | src/backend/app_lister.rs:65-88 | printing a type and parsing the text gives the type back, as does parsing its lower-case word |
| `AppLister.KelvinSignIsK` | src/backend/app_lister.rs:79-87 | matching ignores case, the Kelvin sign counts as `k`, and a longer word is rejected |
| `AppLister.GetAppImageUrl` | src/backend/app_lister.rs:203-246 | no URL only when no logo is known; the current-language capsule wins when present |
| `AppLister.ImageUrlIsFirstFound` | src/backend/app_lister.rs:203-246 | the URL comes from the first non-empty of: the current-language capsule, the English capsule (only when the language is not English), and the logo with `.jpg` |
| `AppLister.GetApp` | src/backend/app_lister.rs:249-288 | fails with `AppListRetrievalFailed` exactly when the name is unavailable or the type attribute does not parse; the developer defaults to `Unknown`; the Metacritic score is the parsed `u8`, kept exactly when the text parses as a `u8`; a missing type means App |
| `AppLister.Subscribed` | src/backend/app_lister.rs:294-306 | only catalogue entries confirmed subscribed are kept; entries whose check fails are skipped |
| `AppLister.SubscribedAppend` | src/backend/app_lister.rs:294-306 | the filter keeps catalogue order |
| `AppLister.SubscribedKeepsConfirmed` | src/backend/app_lister.rs:294-306 | every confirmed entry is kept |
| `AppLister.OwnedAppsAreSubscribed` | src/backend/app_lister.rs:291-309 | listing the catalogue is listing the models of its subscribed entries |
| `AppLister.AllAppsMeaning` | src/backend/app_lister.rs:294-308 | the listing fails exactly when some entry's model fails; otherwise it holds one model per entry, in order |
| `AppLister.CollectOwnedApps` | src/backend/app_lister.rs:291-309 | the listing loop computes the owned-apps listing |
| `AppLister.PrefixFailureSticks` | src/backend/app_lister.rs:298 | the first failing entry fails the whole listing with its error |
| `AppLister.RefreshDecision` | src/backend/app_lister.rs:171-183 | an unreadable modification time is an error; otherwise the catalogue is downloaded exactly when the cache is missing or older than one week |
| `AppLister.GetXmlGames` | src/backend/app_lister.rs:171-200 | every failure is `AppListRetrievalFailed`, an unreadable modification time included; a fresh cache gives exactly the cached games, or fails when it cannot be read; a due refresh succeeds exactly when the download, its parse and the save all succeed, and gives the parsed games |
| `AppLister.GetOwnedApps` | src/backend/app_lister.rs:291-292 | a catalogue failure is the listing's failure; otherwise the listing is that of the loaded catalogue |
| `Arguments.Apply` | src/utils/arguments.rs:68-103 | an invalid value exits with code 1 |
| `Arguments.PrefixesExclusive` | src/utils/arguments.rs:68-103 | an argument matches at most one of the recognised forms |
| `Arguments.ApplyMeaning` | src/utils/arguments.rs:68-103 | an argument ends the process exactly when its value is invalid; otherwise it sets only its own field, and other arguments change nothing |
| `Arguments.ScanFails` | src/utils/arguments.rs:67-104 | the scan exits with 1 exactly when some argument's value is invalid |
| `Arguments.ScanSettings` | src/utils/arguments.rs:67-104 | each field takes the value of the last argument that sets it, or stays at its default |
| `Arguments.ParseCliArgumentsMeaning` | src/utils/arguments.rs:59-113 | the program name is skipped; the arguments parse exactly when every value is valid and tx and rx appear together; a parse gives both handles or neither; every failure exits with 1 |
| `Arguments.LastValueValid` | src/utils/arguments.rs:82-101 | when all arguments are valid, the last tx or rx value is a valid handle |
| `Arguments.AppArgumentRoundTrip` | src/utils/arguments.rs:72-81 | the `--app=<id>` argument alone parses back to that app id, with no other setting |
| `Arguments.WorkerCommandLineRoundTrip` | src/utils/arguments.rs:59-113 | a worker's command line, `--app=<id>` followed by the `--tx=` and `--rx=` handles the spawning side appends, parses to worker mode for that app with both handles, each in its own field |
| `Arguments.ParseGuiArguments` | src/utils/arguments.rs:116-140 | `auto_open` is the value of the last valid `--auto-open=` argument after the program name, or 0 |
| `Arguments.AutoOpenLastWins` | src/utils/arguments.rs:122-137 | a later valid value replaces an earlier one; an invalid value leaves it unchanged |
| `AppWorker.CheckAppId` | src/backend/app.rs:36-43 | a command for another app is answered `AppMismatchError`, and only then |
| `AppWorker.Respond` | src/backend/app.rs:91-94 | a manager result becomes `Success` of its value or `Error` of its error |
| `AppWorker.Dispatch` | src/backend/app.rs:65-159 | failed connection: every command is answered `SteamConnectionFailed` and the loop goes on. Connected: Status is answered `true`; Shutdown disconnects, is answered `true`, and is the only command that stops; a per-app command for another app is answered `AppMismatchError` with the manager untouched; orchestrator-only commands are `UnknownError` |
| `AppWorker.ServedCommands` | src/backend/app.rs:89-153 | a command for the worker's own app goes to the manager with its arguments; manager errors come back unchanged and never stop the loop; a successful set-achievement is answered `true`, the other setters with the manager's value |
| `AppWorker.RunExitsZero` | src/backend/app.rs:46-165 | the worker always exits with 0, and its output only grows |
| `AppWorker.Answer` | src/backend/app.rs:54-160 | at most one reply per command; all commands are answered unless a Shutdown stopped the worker, and then that Shutdown was answered last |
| `AppWorker.RunAnswersEachCommand` | src/backend/app.rs:54-160 | on a stream of framed commands the worker writes exactly one framed reply per command served, in order, and leaves unread exactly the commands after a stopping Shutdown |
| `AppWorker.FailedConnectionAnswers` | src/backend/app.rs:65-68 | without a connection, every command, Shutdown included, is answered `SteamConnectionFailed` and the worker never stops on a command |
| `AppWorker.StopsAtFirstShutdown` | src/backend/app.rs:83-87 | a connected worker stops at the first Shutdown, answering it `true` and nothing after it |
| `Orchestrator.SendAppCommand` | src/backend/orchestrator.rs:33-57 | writes the command; relays the worker's reply byte for byte, length prefix included, and leaves the worker's later bytes; a failed write or short read gives the framed `SocketCommunicationFailed` error |
| `Orchestrator.RelayIsExact` | src/backend/orchestrator.rs:46-56 | a framed worker reply is relayed exactly as framed |
| `Orchestrator.ProcessCommand` | src/backend/orchestrator.rs:106-373 | only Shutdown ends the loop; a worker exists afterwards only if it existed before or was just launched; workers taken out are no longer in the map |
| `Orchestrator.LaunchAppRules` | src/backend/orchestrator.rs:136-166 | launching a running app is `UnknownError` and changes nothing; otherwise exactly that app gains a worker, started with `--app=<id>` and the `--tx=`/`--rx=` handles of its pipes, a command line that parses to worker mode for that app with both handles; the reply is `true` |
| `Orchestrator.StopAppRules` | src/backend/orchestrator.rs:169-197 | stopping an app without a worker is `UnknownError` and changes nothing; otherwise only that worker leaves the map, is sent Shutdown, and its reply is relayed |
| `Orchestrator.StopAllRules` | src/backend/orchestrator.rs:200-237 | StopApps sends Shutdown to every worker, empties the map and answers `true`; Shutdown sends Shutdown to every worker, answers `true` and ends the loop |
| `Orchestrator.ForwardRules` | src/backend/orchestrator.rs:246-368 | a per-app command goes unchanged to that app's worker and its reply is relayed, with only that worker's pipes changing; without a worker the reply is `AppMismatchError` and nothing changes |
| `Orchestrator.OwnedAppsRules` | src/backend/orchestrator.rs:113-134 | the owned-apps listing is answered with the listed apps or the listing's error, with the workers unchanged |
| `Orchestrator.Serve` | src/backend/orchestrator.rs:64-101 | the process halts exactly when a reply cannot be written; it exits with 0 exactly on a Shutdown it can answer; an open session stays open |
| `Orchestrator.SessionRules` | src/backend/orchestrator.rs:72-98 | without a session, Shutdown is answered `true` with no connection attempt; a failed attempt answers `SteamConnectionFailed` and leaves no session, so the next command retries; a successful attempt opens the session and the command is processed |
| `Orchestrator.RunKeepsSession` | src/backend/orchestrator.rs:60-103 | the orchestrator exits only with code 0, and a session once open is never dropped |
| `Orchestrator.RunEndsAtShutdown` | src/backend/orchestrator.rs:60-103 | on a stream of framed commands with writable output, the orchestrator exits exactly when a Shutdown is among them |
| `Request.IntoCommandInverse` | src/frontend/request.rs:191-255 | each request becomes the command of the same name with all fields kept; every command but Status comes from exactly one request |
| `Request.SetterFieldOrder` | src/frontend/request.rs:233-249 | set-achievement puts the unlocked flag before the achievement id; the stat setters put the stat id before the value |
| `Request.Send` | src/frontend/request.rs:29-76 | a poisoned lock, a missing orchestrator and a failed write are `SocketCommunicationFailed`, and nothing is written; on a writable pipe the command's frame is written |
| `Request.SendReadsLikeFromRecver` | src/frontend/request.rs:46-71 | the reply is read with the same framing as `from_recver`; a body that does not decode is `SocketCommunicationFailed` instead of `SerializationFailed`; a decoded reply becomes its `Result` |
| `Request.SendReceivesReply` | src/frontend/request.rs:29-71 | when the framed reply waits in the pipe, the request returns it as a `Result` and leaves what follows for the next request |

## Left out

- Floating point: `as_f32` is not modelled. An `f32` is its 32-bit pattern, with IEEE equality and `as i32` written out; no arithmetic is performed on it.
- `KeyValue.AsString`: the text of a Float32 value comes from a function parameter that stands for Rust's float `Display`, so its contract says only that the text is that parameter's.
- `KeyValue.AsI32`: for a finite float, the contract states only the NaN case. `Float.ToI32` computes the saturating `as i32` conversion, but its contract states only its sign, NaN, small-value and infinity cases.
- `KeyValue.ReadAsBinary`: on failure the Rust node keeps the children read before the error. The model returns only the error, which every caller propagates.
- `KeyValue.LoadAsBinary`: opening the file is left out. The file's bytes are the input, and I/O errors other than end-of-file cannot occur on them.
- The JSON codec (serde_json and `from_utf8_lossy`) is a pair of functions. Round-trip properties assume it round-trips.
- Message framing assumes a 64-bit `usize` (8-byte prefix). An announced length too large to allocate counts as a short read.
- One `Payload` datatype stands for every reply type, so one reply codec serves all replies.
- Pipes are in-memory streams. Process creation, `wait()`, blocking and closing a pipe are left out. A spawned worker's pipes, and the handle values put on its command line, come from a parameter.
- Panics in the orchestrator are the `Halted` outcome: a failed inbound read and a failed reply write. A failed spawn is left out because spawning is a total parameter.
- The debug-build `app_id == 0` shortcuts in the orchestrator are left out.
- The Steam client, `AppManager`, `ConnectedSteam` and `connected_steam.shutdown()` are parameters. The closed state of the session is a flag.
- `AppLister::new` is left out: environment variables and the cache directory. The HTTP download, XML parsing and the cache file are parameters.
- Times are nanoseconds since the epoch, held in unbounded integers. The underflow panic of `SystemTime::now() - one week` is left out.
- Arguments are Rust strings. A GUI argument that is not valid Unicode is not modelled, and the Windows `usize` pipe handles are left out; Linux `i32` descriptors are parsed.
- `StatIsProtectedError::with_message`, the `Display` impls other than `SamError`'s, and the stat and achievement definition records are outside this model.
- Logging (`eprintln!`, `dev_println!`, `log::`) is left out.
