# Verification of PlayerVox OverCrow

A Dafny model of the parts of OverCrow that decide something: which game the Core
accepts and shows, how the GNOME bridge talks to the Core, how Steam's binary files are
read and merged, how the Control application enables, disables and updates the system,
and how events and diagnostics are bounded. `dafny verify dfyconfig.toml` checks it.

Code that updates state in place is modelled by classes and methods with the same
updates, each proved to do exactly what a function of the old state says; the properties
are lemmas about those functions, over all inputs or all runs.

| file | models |
|---|---|
| `Core.dfy`, `CoreSafety.dfy`, `CoreHistory.dfy`, `CoreAnswers.dfy`, `CoreService.dfy` | the Core authority: ten operations under one mutation lock, an invariant over every run, what each operation answers, told from reports, table and settings, and what runs mean for session time, stopwatch and lease |
| `Processes.dfy`, `Telemetry.dfy`, `Stopwatch.dfy` | process identity, allowlist, group telemetry, the manual stopwatch |
| `Bridge.dfy`, `BridgeSafety.dfy`, `BridgeRetries.dfy`, `BridgeProgress.dfy`, `BridgeRuntime.dfy` | the GNOME bridge: handlers as atomic steps over a bag of replies to come, delivered in any order; what no run breaks, and what each notice is followed by |
| `Bytes.dfy`, `BinaryVdf.dfy`, `SteamBinary.dfy`, `AppInfo.dfy`, `AppTypes.dfy`, `Shortcuts.dfy`, `ShortcutFiles.dfy` | binary VDF, its printer, the two files read with it, and what reading written ones gives |
| `KeyValuesPreflight.dfy`, `Orders.dfy`, `SteamDiscovery.dfy`, `SteamMerge.dfy` | the nesting check, the bounded choice of manifests, and the merge of metadata |
| `Lifecycle.dfy` | enabling and disabling as transactions with rollback |
| `Updates.dfy`, `UpdatesSafety.dfy`, `UpdatesService.dfy`, `UpdateRelease.dfy` | the update controller as a machine of threads, and the choice of a release |
| `EventLog.dfy`, `Diagnostics.dfy` | coalescing of geometry events, and byte budgets of diagnostic text |

Outside calls are parameters: what the clock reads, what a file, bus, unit, download or
installer answers, and what the compositor holds while a handler runs. A failing unit
command may leave the unit either way, and a failing save may or may not have replaced
the file.

Three properties one would expect do not hold as first put, and are stated as they do:

- A lifecycle call that reports no cleanup failure does not by itself make the persisted
  flag and the unit agree: a call refused before the save repairs nothing
  (`RefusalRepairsNothing`). They agree after it exactly if it got as far as the save or
  they agreed before (`CleanMeansAgreement`).
- Geometry logging can lose changes, because its 64-bit counter saturates
  (`ShakingLosesAChange`). It loses none exactly as long as never more than 2^64 - 1
  changes wait for an event (`NothingLost`).
- Geometry events of a game need not be a second apart: in the last second the clock can
  tell there is no deadline, and no limit (`LastSecondIsNotLimited`). `LogsExactlyWhenDue`
  says exactly when one is logged.

## Model

| member | source | states |
|---|---|---|
| `BinaryVdf.WalkCharacterized` | crates/overcrow-control/src/steam_binary.rs:480-553 | for every byte string, key mode, visitor and state: the walk succeeds with a result if and only if the bytes are the encoding of a document within the depth, entry, key and value limits, with or without one final end byte, and the result is that of visiting the flattened (path, key, scalar) sequence of that document in order |
| `BinaryVdf.EncodingUnique` | crates/overcrow-control/src/steam_binary.rs:480-572 | a byte string is the encoding of at most one document, and with at most one choice of the final end byte, for inline and for indexed keys |
| `BinaryVdf.WalkEncoded` | crates/overcrow-control/src/steam_binary_tests.rs:9-44 | walking a printed document visits its flattened sequence and goes on with the bytes after it: parsing undoes printing, for every document within the limits |
| `BinaryVdf.WalkAccepted` | crates/overcrow-control/src/steam_binary.rs:480-553 | whatever the walk accepts starts with a printed document within the limits: printing undoes parsing |
| `BinaryVdf.TokenPrefix` | crates/overcrow-control/src/steam_binary.rs:499-547 | a printed type byte, key and value are read back as themselves whatever follows them |
| `BinaryVdf.TokenPrinted` | crates/overcrow-control/src/steam_binary.rs:499-547 | every token that is read is the printed form of what it was read as |
| `SteamBinary.Cursor.constructor` | crates/overcrow-control/src/steam_binary.rs:71-73 | a cursor starts before the first byte |
| `SteamBinary.Cursor.ReadU8` | crates/overcrow-control/src/steam_binary.rs:79-86 | the next byte, and the rest after it, or an error at the end |
| `SteamBinary.Cursor.ReadU32` | crates/overcrow-control/src/steam_binary.rs:88-95 | the little-endian number in the next four bytes, and the rest after them, or an error if there are fewer |
| `SteamBinary.Cursor.Exact` | crates/overcrow-control/src/steam_binary.rs:97-108 | exactly the next n bytes, and the rest after them, or an error if there are fewer |
| `SteamBinary.Cursor.CString` | crates/overcrow-control/src/steam_binary.rs:110-128 | the bytes up to the first zero byte, and the rest after it, or an error if there is none within the limit |
| `SteamBinary.Cursor.SkipWideString` | crates/overcrow-control/src/steam_binary.rs:130-149 | the rest after the first two-byte zero, or an error if there is none within the limit |
| `SteamBinary.Cursor.Key` | crates/overcrow-control/src/steam_binary.rs:555-572 | a key spelled out, which must be UTF-8, or one looked up by its index |
| `SteamBinary.Cursor.ScalarValue` | crates/overcrow-control/src/steam_binary.rs:509-533 | the value each type byte calls for |
| `SteamBinary.Cursor.Payload` | crates/overcrow-control/src/steam_binary.rs:500-533 | what follows a type byte other than the end byte |
| `SteamBinary.Cursor.Entry` | crates/overcrow-control/src/steam_binary.rs:499-547 | one entry is read exactly as the token grammar says, and the cursor moves exactly past it |
| `SteamBinary.Turn` | crates/overcrow-control/src/steam_binary.rs:492-548 | one turn of the loop keeps the outcome of the walk, and moves on |
| `SteamBinary.WalkBinaryVdf` | crates/overcrow-control/src/steam_binary.rs:480-553 | the loop with its path stack and entry counter computes exactly the walk, so all of the above holds of it |
| `Bytes.LeRoundTrip` | crates/overcrow-control/src/steam_binary.rs:88-95 | four little-endian bytes give back the number they were made from |
| `Bytes.LeInverse` | crates/overcrow-control/src/steam_binary.rs:88-95 | and every four bytes are those of the number they are read as |
| `AppInfo.ExtractAppType` | crates/overcrow-control/src/steam_binary.rs:375-401 | runs the walk with the type visitor |
| `AppInfo.ExtractedTypeIsDeclared` | crates/overcrow-control/src/steam_binary.rs:375-401 | succeeds with a type if and only if the bytes encode a document that declares at most one type, readable, and it is that type (unknown if there is none) |
| `AppInfo.ParseStringTable` | crates/overcrow-control/src/steam_binary.rs:356-373 | the loop reads exactly the counted strings of the table, whatever follows them |
| `AppInfo.StringTableRoundTrip` | crates/overcrow-control/src/steam_binary_tests.rs:66-96 | a written table is read back as the same strings |
| `AppInfo.StringTableCharacterized` | crates/overcrow-control/src/steam_binary.rs:356-373 | a table is read as some strings if and only if they are within the limits and the bytes start with their printed table |
| `AppInfo.ParseAppInfo` | crates/overcrow-control/src/steam_binary.rs:288-354 | header, version, key table and records together are exactly the specified parse |
| `AppInfo.ParseRecords` | crates/overcrow-control/src/steam_binary.rs:312-352 | the record loop computes exactly the specified records; its invariant keeps the offset at least 68 bytes further on for each record read and inside the section, so it ends on every byte string with all slices in bounds |
| `AppInfo.HeaderCharacterized` | crates/overcrow-control/src/steam_binary.rs:288-311 | the header of a file gives a layout if and only if its bytes say so: the version number, and for version 41 the offset at which the printed key table begins |
| `AppInfo.AppInfoCharacterized` | crates/overcrow-control/src/steam_binary.rs:288-354 | for every byte string: the parse succeeds with a map if and only if the file is laid out, in its bytes, as a header, records each holding one document up to a zero identifier or the end of their section, and in version 41 the printed key table, with distinct identifiers and usable documents, and the map is the one those records describe |
| `AppInfo.RecordsUnique` | crates/overcrow-control/src/steam_binary.rs:312-352 | a file holds at most one sequence of records |
| `AppInfo.CollectSucceeds` | crates/overcrow-control/src/steam_binary.rs:347-350 | collecting records succeeds exactly if their identifiers are distinct and every document declares a usable type |
| `AppInfo.CollectMaps` | crates/overcrow-control/src/steam_binary.rs:347-350 | each identifier is mapped to the type its own record declares and nothing else is added |
| `AppInfo.AppInfoV41RoundTrip` | crates/overcrow-control/src/steam_binary_tests.rs:66-96 | reading back a written version 41 file of distinct nonzero identifiers gives exactly the map from identifier to declared type |
| `AppInfo.AppInfoV40RoundTrip` | crates/overcrow-control/src/steam_binary.rs:288-312 | the same for a version 40 file |
| `AppInfo.TypeDocumentDeclares` | crates/overcrow-control/src/steam_binary_tests.rs:66-96 | the document the encoder writes declares the classified type text |
| `AppTypes.WhiteIsTrimmedAhead` | crates/overcrow-control/src/steam_binary.rs:403-404 | white space in front, as listed by Unicode, is trimmed off whatever follows it |
| `AppTypes.WhiteIsTrimmedBehind` | crates/overcrow-control/src/steam_binary.rs:403-404 | so is white space behind |
| `AppTypes.TrimmedAheadIsWhite` | crates/overcrow-control/src/steam_binary.rs:403-404 | nothing but white space is trimmed off in front |
| `AppTypes.TrimmedBehindIsWhite` | crates/overcrow-control/src/steam_binary.rs:403-404 | nor behind |
| `AppTypes.NamedExactlyWhenListed` | crates/overcrow-control/src/steam_binary.rs:403-410 | text compares equal to a name exactly if it is that name letter by letter up to case, with any white space around it |
| `AppTypes.DeclaredAsNamed` | crates/overcrow-control/src/steam_binary.rs:375-410 | for every readable text: a document with that text under the keys appinfo, common, type, in any case, declares a game exactly if the text is game or demo, no game exactly if it is one of ten other names, each up to case and white space, and an unknown type otherwise; under other keys always an unknown one |
| `AppTypes.FileDeclaresAsNamed` | crates/overcrow-control/src/steam_binary.rs:288-410 | reading a written version 41 file with such a document gives its identifier that type |
| `Shortcuts.ParseShortcuts` | crates/overcrow-control/src/steam_binary.rs:412-478 | runs the walk with the shortcut builders and collects them |
| `Shortcuts.CollectBuilders` | crates/overcrow-control/src/steam_binary.rs:462-477 | the loop over the builders gives the accepted shortcuts in the order of their records, and counts the others |
| `Shortcuts.GatheredInOrder` | crates/overcrow-control/src/steam_binary.rs:462-477 | that list follows the strictly ascending sequence of exactly the records that give a shortcut |
| `Shortcuts.ShortcutsCharacterized` | crates/overcrow-control/src/steam_binary.rs:412-478 | for every byte string: succeeds if and only if the bytes encode a document with at most 1024 shortcut records, and returns exactly the shortcuts, in record order, of the records with one nonzero integer id and one readable name that is not blank, with the number of the other records |
| `ShortcutFiles.TrimStrips` | crates/overcrow-control/src/steam_binary.rs:450-451 | a name loses exactly the white space around it, and is left empty exactly if it is all white space |
| `ShortcutFiles.DigitsAreRead` | crates/overcrow-control/src/steam_binary.rs:424-426 | a record number written in decimal is read as itself |
| `ShortcutFiles.WireFormat` | crates/overcrow-control/src/steam_binary_tests.rs:9-44 | the bytes of the entries of a record, and those around an object |
| `ShortcutFiles.FileIsRead` | crates/overcrow-control/src/steam_binary.rs:412-478 | for any list of up to 1024 written records and any case of the keys: reading the file gives, in order, the identifier and the stripped name of exactly the records with an identifier other than zero and a name that is readable, at most 256 bytes long and not blank, and counts the others |
| `KeyValuesPreflight.Preflight` | crates/overcrow-control/src/steam.rs:839-901 | the single pass with its lexer state and depth counter gives exactly the verdict due to the braces outside strings and comments, with its two kinds of error |
| `KeyValuesPreflight.JudgedByHeight` | crates/overcrow-control/src/steam.rs:863-878 | a text passes if and only if the height of its braces stays between 0 and 64 and ends at 0; it is too deep if and only if the first brace to leave the bounds is one too many opened; it is unbalanced in every other case |
| `KeyValuesPreflight.AcceptsNestedBlocks` | crates/overcrow-control/src/steam.rs:839-901 | a text passes if and only if those braces are the brackets of blocks nested at most 64 deep |
| `KeyValuesPreflight.BracesOfPieces` | crates/overcrow-control/src/steam.rs:839-901 | the braces that count in a text made of braces, quoted strings with any escapes, comments up to their line end, blanks and tokens are its brace pieces in order: no string, comment or token adds any |
| `SteamDiscovery.RetainBounded` | crates/overcrow-control/src/steam.rs:539-558 | fed one more value, the set again holds exactly the `limit` smallest distinct values seen, and the flag says exactly whether more than `limit` distinct ones were seen |
| `SteamDiscovery.BottomUnique` | crates/overcrow-control/src/steam.rs:539-558 | there is only one set of the `limit` smallest: it does not depend on the order of the stream |
| `SteamDiscovery.ChooseManifests` | crates/overcrow-control/src/steam.rs:446-478 | a directory listing yields exactly its `remaining` smallest manifests, and reports the limit exactly if it has more |
| `SteamDiscovery.ManifestScan.constructor` | crates/overcrow-control/src/steam.rs:80-87 | a scan starts with nothing found |
| `SteamDiscovery.ManifestScan.ReadManifests` | crates/overcrow-control/src/steam.rs:512-536 | reading in ascending order with the first claim kept gives each new id the game of its least manifest that yields one |
| `SteamDiscovery.ManifestScan.ScanLibrary` | crates/overcrow-control/src/steam.rs:428-537 | one library: quota, choice, count, limit report and games are exactly the specified scan |
| `SteamDiscovery.ManifestScan.ScanLibraries` | crates/overcrow-control/src/steam.rs:200-211 | the loop over libraries, which stops once the limit is reported, is exactly the specified scan |
| `SteamDiscovery.InspectionBounded` | crates/overcrow-control/src/steam.rs:446-510 | of all manifests listed 256 are read, or all if they are fewer, and the limit is reported exactly if they are more |
| `SteamDiscovery.GamesKnown` | crates/overcrow-control/src/steam.rs:512-536 | while no more than 256 manifests are listed, an id is known exactly if some manifest yields a game for it |
| `SteamDiscovery.GamesFound` | crates/overcrow-control/src/steam.rs:512-536 | and its game is the one the first library that yields any has in the manifest of least path, whatever comes after |
| `SteamDiscovery.ListingOrderIrrelevant` | crates/overcrow-control/src/steam.rs:428-537 | games, count and limit report are the same in whatever order directories are listed |
| `SteamMerge.MetadataMerge.constructor` | crates/overcrow-control/src/steam.rs:229-231 | nothing seen yet |
| `SteamMerge.MetadataMerge.SeeType` | crates/overcrow-control/src/steam.rs:238-250 | keeps the maps true to the types seen: an id is ambiguous exactly if two types or two names differ |
| `SteamMerge.MetadataMerge.SeeShortcut` | crates/overcrow-control/src/steam.rs:251-263 | the same for shortcut names |
| `SteamMerge.MetadataMerge.SeeTypes` | crates/overcrow-control/src/steam.rs:238-250 | all types of a root are taken in, in any order |
| `SteamMerge.MetadataMerge.SeeShortcuts` | crates/overcrow-control/src/steam.rs:251-263 | all shortcuts of a root are taken in |
| `SteamMerge.MetadataMerge.SeeRoot` | crates/overcrow-control/src/steam.rs:233-264 | all that a root reports is taken in |
| `SteamMerge.Conclude` | crates/overcrow-control/src/steam.rs:266-302 | the final steps drop what is ambiguous, give games their kind and add shortcuts |
| `SteamMerge.MergeBinaryMetadata` | crates/overcrow-control/src/steam.rs:224-303 | an id is dropped as ambiguous exactly when two reports give different types, two shortcuts different names, or it is both a manifest game and a shortcut; every other id gets the kind its type implies, is dropped as no game, or is its shortcut |
| `SteamMerge.MergedAnswered` | crates/overcrow-control/src/steam.rs:266-302 | an id stays exactly if no two roots give it different types or names, no shortcut has the id of a manifest game, and it is a manifest game no root calls no game, or a shortcut; a game keeps everything but its kind, which is certain exactly if some root calls it a game, and a shortcut has its name and nothing else |
| `SteamMerge.RootOrderIrrelevant` | crates/overcrow-control/src/steam.rs:224-303 | the outcome is the same for every order of the roots |
| `Processes.ClassifyProcessIdentity` | crates/overcrow-core/src/classifier.rs:68-100 | the loop with its cycle check gives the identity summed up over the nearest 64 of the line of ancestors with no cycle check: leaving a cycle early never changes it |
| `Processes.Absorbed` | crates/overcrow-core/src/classifier.rs:68-100 | processes met again add nothing to an identity |
| `Processes.CycleStays` | crates/overcrow-core/src/classifier.rs:68-100 | once the walk is back at a process it has seen, it stays among those |
| `Processes.IsDescendantOrSelf` | crates/overcrow-core/src/telemetry.rs:131-149 | equals reachability within 64 ancestors; the cycle check never changes the answer |
| `Processes.AllowedIsListed` | crates/overcrow-config/src/allowlist.rs:39-60 | an allowed process is in the table, so the selected-running flag is true |
| `Processes.Validate` | crates/overcrow-config/src/model.rs:49-72 | settings are accepted exactly if they are valid, and otherwise the first thing wrong is reported, manual games being looked at in order |
| `Telemetry.AggregateResources` | crates/overcrow-core/src/telemetry.rs:118-129 | saturating sums in any iteration order equal the true totals cut at the largest 64-bit number |
| `Telemetry.TakeOut` | crates/overcrow-core/src/telemetry.rs:118-129 | the totals do not depend on which process is taken first |
| `Telemetry.CollectProcessSample` | crates/overcrow-core/src/telemetry.rs:87-116 | the sample is that of exactly the processes that descend from the active one or share its Steam id |
| `Telemetry.CpuFigureExact` | crates/overcrow-core/src/telemetry.rs:151-173 | the 128-bit products never saturate, and the figure is the floor of ticks * 10^13 / (ns * ticks per second), cut at 2^32 - 1 |
| `Telemetry.NoFigureExactly` | crates/overcrow-core/src/telemetry.rs:151-167 | there is no figure if and only if the clock stood still or went back, the tick rate is zero, the time in ticks exceeds 128 bits, or the tick counter went back |
| `Telemetry.TelemetrySampler.constructor` | crates/overcrow-core/src/telemetry.rs:58-63 | no earlier sample |
| `Telemetry.TelemetrySampler.Observe` | crates/overcrow-core/src/telemetry.rs:64-80 | the figure between the last two samples, and the new sample is kept |
| `Telemetry.TelemetrySampler.Reset` | crates/overcrow-core/src/telemetry.rs:82-84 | forgets the earlier sample |
| `Stopwatch.ReadsRunTime` | crates/overcrow-core/src/manual_stopwatch.rs:11-37 | after any toggles since a reset, the stopwatch reads the sum of its run intervals and runs exactly after an odd number of them |
| `Stopwatch.ManualStopwatch.constructor` | crates/overcrow-core/src/manual_stopwatch.rs:5-9 | stopped at zero |
| `Stopwatch.ManualStopwatch.Toggle` | crates/overcrow-core/src/manual_stopwatch.rs:12-21 | starts, or adds the run to the accumulated time with saturation |
| `Stopwatch.ManualStopwatch.Reset` | crates/overcrow-core/src/manual_stopwatch.rs:23-26 | stopped at zero |
| `Stopwatch.ManualStopwatch.SnapshotAt` | crates/overcrow-core/src/manual_stopwatch.rs:28-37 | the reading, in milliseconds cut to 64 bits |
| `CoreSafety.Safety` | crates/overcrow-core/src/runtime.rs:101-176 | in every state reachable by any sequence of operations an active game is authorised now: its process is in the current table with the accepted start ticks, classifying it again gives the accepted identity, the current settings allow that identity, and the selected-running flag is true; with no game nothing of one is left; and what is published is what is shown |
| `CoreSafety.StepKeeps` | crates/overcrow-core/src/runtime.rs:232-566 | every operation keeps the invariant, and the revision grows by one exactly if what is shown changes, until it saturates |
| `CoreSafety.StartedKeeps` | crates/overcrow-core/src/runtime.rs:101-176 | a Core satisfies the invariant from the start, whatever it is started with |
| `CoreSafety.RunKeeps` | crates/overcrow-core/src/runtime.rs:232-566 | so does every run |
| `CoreSafety.PublishKeeps` | crates/overcrow-core/src/runtime.rs:627-637 | publishing makes the published projection that of the state and counts exactly the changes |
| `CoreSafety.ChangeIsProjected` | crates/overcrow-core/src/runtime.rs:906-926 | a snapshot counts as changed exactly if its projection differs |
| `CoreSafety.EqualRevisionsShowTheSame` | crates/overcrow-core/src/runtime.rs:627-637 | revisions never decrease, and below saturation equal revisions in a run show the same |
| `CoreHistory.SessionNeverGoesBack` | crates/overcrow-core/src/runtime.rs:769-792 | with clock readings that never decrease, the session time of one process instance never goes backwards while it stays active, even across scans without timing or with a smaller age |
| `CoreHistory.ReconciledKeepsFloor` | crates/overcrow-core/src/runtime.rs:847-872 | reconciling never lets the time reached fall |
| `CoreHistory.StopwatchReadsItsRuns` | crates/overcrow-core/src/runtime.rs:232-266 | over any run the stopwatch reads the sum of its run intervals since it was reset or the active process changed |
| `CoreHistory.LeaseIsLastReport` | crates/overcrow-core/src/runtime.rs:294-342 | the lease is the time of the bridge report the active game rests on |
| `CoreHistory.WatchdogDropsExactlyStale` | crates/overcrow-core/src/runtime.rs:405-427 | the watchdog drops the game exactly when it rests on a bridge report at least 5 s old, and else changes nothing |
| `CoreHistory.SurvivorIsFresh` | crates/overcrow-core/src/runtime.rs:405-427 | a bridge-fed game that survives a watchdog tick has an accepted report younger than 5 s |
| `CoreAnswers.AllowedExactlyWhenSelected` | crates/overcrow-config/src/allowlist.rs:39-60 | a process is allowed if and only if the settings are enabled and valid and, of the nearest 64 processes of its line, the first Steam id is selected or some executable is that of a manual game |
| `CoreAnswers.RunningExactlyWhenSelected` | crates/overcrow-core/src/runtime.rs:734-741 | the selected-running flag is true if and only if some process of the table is so selected |
| `CoreAnswers.ReportAnswered` | crates/overcrow-core/src/runtime.rs:294-403 | after a bridge or X11 report there is a game if and only if the rectangle can be drawn, the process is in the table and it is selected; the game is then exactly the reported window, a bridge report starts the lease, and telemetry is kept if and only if the process group stays the same |
| `CoreAnswers.OtherReportsAnswered` | crates/overcrow-core/src/runtime.rs:344-403 | an X11 report of the overlay's own window changes nothing; one of no window, and a clear, leave no game |
| `CoreAnswers.ChangeAnswered` | crates/overcrow-core/src/runtime.rs:447-566 | a new table or new settings keep game and mode if and only if the process is the same instance with the same identity and is still selected; settings that are disabled or invalid change nothing |
| `CoreAnswers.StartAnswered` | crates/overcrow-core/src/runtime.rs:101-176 | a Core starts with the settings it is given if they are enabled and valid and with the defaults otherwise, and with the game it is given exactly if its process is selected and has the Steam id the game claims |
| `CoreAnswers.TelemetryAnswered` | crates/overcrow-core/src/runtime.rs:816-845 | a refresh publishes the two temperatures as given, the memory of exactly the processes that descend from the game's or share its Steam id, and the CPU figure since the last sample of the same process and game, or none |
| `CoreAnswers.TimingAnswered` | crates/overcrow-core/src/runtime.rs:769-872 | after a report, a refresh or new settings that leave a game, the time of its process is what the table tells or, for the same process, what was reached before if that is more, and there is none exactly if the table tells none |
| `CoreAnswers.SessionAnswered` | crates/overcrow-core/src/runtime.rs:874-887 | the session time shown is the time known of the process plus the time since, in milliseconds |
| `CoreAnswers.ControlsAnswered` | crates/overcrow-core/src/runtime.rs:232-287 | the overlay turns interactive only over a game, and the stopwatch obeys exactly while there is a game and the profile shows it |
| `CoreService.CoreRuntime.constructor` | crates/overcrow-core/src/runtime.rs:101-176 | the initial state, with invalid or disabled settings replaced by the defaults and an unauthorised game dropped; the invariant holds |
| `CoreService.CoreRuntime.SnapshotAt` | crates/overcrow-core/src/runtime.rs:220-230 | the snapshot of the current state |
| `CoreService.CoreRuntime.Publish` | crates/overcrow-core/src/runtime.rs:627-637 | a changed snapshot is published under the next revision |
| `CoreService.CoreRuntime.PublishAt` | crates/overcrow-core/src/runtime.rs:627-637 | publishes the current snapshot |
| `CoreService.CoreRuntime.ClearState` | crates/overcrow-core/src/runtime.rs:593-606 | forgets the game and all metadata about it |
| `CoreService.CoreRuntime.ClearGame` | crates/overcrow-core/src/runtime.rs:344-347 | is the step Clear, and keeps the invariant |
| `CoreService.CoreRuntime.AllowedProcess` | crates/overcrow-core/src/runtime.rs:608-625 | the identity of an acceptable observation, or nothing |
| `CoreService.CoreRuntime.SetTiming` | crates/overcrow-core/src/runtime.rs:847-872 | timing and floor are those of the reconciliation |
| `CoreService.CoreRuntime.Adopt` | crates/overcrow-core/src/runtime.rs:307-333 | metadata of an accepted observation |
| `CoreService.CoreRuntime.Consider` | crates/overcrow-core/src/runtime.rs:294-342 | accepts an allowed observation, clears on any other |
| `CoreService.CoreRuntime.ApplyBridgeObservation` | crates/overcrow-core/src/runtime.rs:294-342 | is the step BridgeReport, and keeps the invariant |
| `CoreService.CoreRuntime.ApplyX11Observation` | crates/overcrow-core/src/runtime.rs:349-403 | is the step X11Report, and keeps the invariant |
| `CoreService.CoreRuntime.ExpireBridgeLease` | crates/overcrow-core/src/runtime.rs:405-427 | is the step LeaseCheck, reports exactly whether the lease was over, and keeps the invariant |
| `CoreService.CoreRuntime.RefreshProcess` | crates/overcrow-core/src/runtime.rs:769-792 | process, timing and stopwatch follow the current table |
| `CoreService.CoreRuntime.RefreshTelemetry` | crates/overcrow-core/src/runtime.rs:816-845 | telemetry of the current group |
| `CoreService.CoreRuntime.CheckStillValid` | crates/overcrow-core/src/runtime.rs:889-904 | the active game is still authorised |
| `CoreService.CoreRuntime.RefreshState` | crates/overcrow-core/src/runtime.rs:447-508 | the new table is taken over and the game kept or dropped |
| `CoreService.CoreRuntime.InstallRefreshSnapshot` | crates/overcrow-core/src/runtime.rs:447-508 | is the step Refresh, and keeps the invariant |
| `CoreService.CoreRuntime.ReloadState` | crates/overcrow-core/src/runtime.rs:510-566 | new settings are taken over and the game kept or dropped |
| `CoreService.CoreRuntime.ReloadSettingsFrom` | crates/overcrow-core/src/runtime.rs:510-566 | is the step ReloadSettings, accepts exactly acceptable settings, and keeps the invariant |
| `CoreService.CoreRuntime.ReloadWidgetProfile` | crates/overcrow-core/src/runtime.rs:568-591 | is the step ReloadProfile, and keeps the invariant |
| `CoreService.CoreRuntime.ToggleManualStopwatch` | crates/overcrow-core/src/runtime.rs:232-248 | is the step ToggleStopwatch, and keeps the invariant |
| `CoreService.CoreRuntime.ResetManualStopwatch` | crates/overcrow-core/src/runtime.rs:250-266 | is the step ResetStopwatch, and keeps the invariant |
| `CoreService.CoreRuntime.ToggleOverlayMode` | crates/overcrow-core/src/runtime.rs:268-275 | is the step ToggleOverlay, and keeps the invariant |
| `CoreService.CoreRuntime.SetOverlayInteractive` | crates/overcrow-core/src/runtime.rs:277-287 | is the step SetInteractive, and keeps the invariant |
| `CoreService.AnySelectedProcess` | crates/overcrow-core/src/runtime.rs:734-741 | the loop finds whether any process is selected |
| `BridgeSafety.SingleFlight` | integrations/gnome/extension.js:508-605 | under every order of calls, replies, errors and new intents: exactly one window request of the current generation waits for an answer while one is in flight and none otherwise; a pending request is the newest intent and carries its serial; whenever nothing is in flight the last window call was made for the newest intent; calls follow the order of the intents |
| `BridgeSafety.OnePerGeneration` | integrations/gnome/extension.js:1023-1065 | of every Core generation at most one window request waits for an answer |
| `BridgeSafety.ClearHolds` | integrations/gnome/extension.js:527-536 | from a clear until the next queued report, whatever snapshots come in whatever order: no game, no candidate, passive mode, no retry armed; and the fence is up exactly then |
| `BridgeSafety.EarlierGenerationsAreDead` | integrations/gnome/extension.js:1047-1060 | a reply of an earlier Core generation changes nothing but the bag of replies to come |
| `BridgeRetries.RetriesBounded` | integrations/gnome/extension.js:607-638 | from any reachable state on, over any run without a fresh report, a candidate is reported again at most six times |
| `BridgeRetries.RetriesRunOut` | integrations/gnome/extension.js:546-638 | each retry uses up one of those that were left, and nothing but a fresh report adds any |
| `BridgeProgress.FocusIsReported` | integrations/gnome/extension.js:407-454 | a reportable window that has the focus when it changes, or after the grace period, and is not the game with its overlay in use, becomes the candidate and the newest intent with six retries, under the next serial and with the fence down; its call is made at once or waits for the one in flight |
| `BridgeProgress.FocusedIdentityIsReported` | integrations/gnome/extension.js:360-371 | so does a focused window that appears or changes its identity |
| `BridgeProgress.FirstFocusIsReported` | integrations/gnome/extension.js:263-265 | and the window that has the focus when the first snapshot of a Core names no game |
| `BridgeProgress.OverlayFocusReportsGame` | integrations/gnome/extension.js:429-440 | when the overlay gets the focus in interactive mode, the game behind it is reported |
| `BridgeProgress.GameIsKeptAlive` | integrations/gnome/extension.js:253-262 | the game is reported again at each keepalive while it or the overlay has the focus, without retries, or cleared if it cannot be reported |
| `BridgeProgress.RetryIsReported` | integrations/gnome/extension.js:617-636 | a retry that is due reports its window again with one retry less, or clears it |
| `BridgeProgress.ChangeIsReported` | integrations/gnome/extension.js:373-386 | a change of the game or the candidate is reported exactly if it shows in the report |
| `BridgeProgress.LossIsCleared` | integrations/gnome/extension.js:388-427 | the loss of the game or the candidate, and of the focus beyond the grace period, is followed by a clear |
| `BridgeProgress.FoundExactlyWhenMeant` | integrations/gnome/extension.js:768-790 | a window is found for a game if and only if it fits and has the focus, or no focused window fits and it is the only one that fits with its rectangle, or the only one that fits |
| `BridgeProgress.SnapshotIsFollowed` | integrations/gnome/extension.js:640-726 | a current snapshot with a game that is not fenced off makes the window meant the game, or is followed by a clear if there is none, or by a report of the focused window if that is another one |
| `BridgeProgress.SnapshotIsDeclined` | integrations/gnome/extension.js:640-690 | an older snapshot changes nothing; one behind a fence, without a game or unreadable leaves none and makes no call |
| `BridgeProgress.ReplyAsksForSnapshot` | integrations/gnome/extension.js:572-597 | a reply to a window call is followed by asking for the snapshot |
| `BridgeProgress.DeclinedIsRetried` | integrations/gnome/extension.js:572-638 | a current report that fails, or after which the Core names no game, arms a retry exactly if one is left and the window can still be reported |
| `BridgeProgress.CoreIsAttached` | integrations/gnome/extension.js:234-328 | a Core that appears is attached under a new generation, with all windows watched, the last overlay among them, nothing else remembered and its snapshot asked for |
| `BridgeSafety.StepKeeps` | integrations/gnome/extension.js:206-454 | every handler keeps the invariant |
| `BridgeSafety.RunKeeps` | integrations/gnome/extension.js:206-454 | so does every run |
| `BridgeSafety.StepForward` | integrations/gnome/extension.js:640-726 | no step goes back: within a generation the snapshot revision and the intent serial only grow and calls are only added, or else a new generation starts |
| `BridgeSafety.GenerationsGrow` | integrations/gnome/extension.js:234-307 | generations, serials and calls only grow over a run |
| `BridgeRuntime.GnomeBridgeRuntime.constructor` | integrations/gnome/extension.js:172-204 | the initial state; the invariant holds |
| `BridgeRuntime.GnomeBridgeRuntime.ApplyPassiveState` | integrations/gnome/extension.js:747-754 | passive, with no game and no candidate |
| `BridgeRuntime.GnomeBridgeRuntime.CancelCandidateRetry` | integrations/gnome/extension.js:1102-1107 | no retry is armed |
| `BridgeRuntime.GnomeBridgeRuntime.Call` | integrations/gnome/extension.js:1023-1065 | a call waits for its reply |
| `BridgeRuntime.GnomeBridgeRuntime.DispatchWindowRequest` | integrations/gnome/extension.js:546-597 | the request is in flight, its report is remembered, and the call is made or fails at once |
| `BridgeRuntime.GnomeBridgeRuntime.FailWindowRequest` | integrations/gnome/extension.js:588-595 | a failed current request makes the bridge passive, then the next pending one goes out, then a retry is armed |
| `BridgeRuntime.GnomeBridgeRuntime.FinishWindowRequest` | integrations/gnome/extension.js:599-605 | lands the request and dispatches the pending one |
| `BridgeRuntime.GnomeBridgeRuntime.ScheduleCandidateRetry` | integrations/gnome/extension.js:607-638 | arms a retry while retries are left |
| `BridgeRuntime.GnomeBridgeRuntime.QueueWindowRequest` | integrations/gnome/extension.js:538-544 | dispatches, or replaces the pending request while one is in flight |
| `BridgeRuntime.GnomeBridgeRuntime.RequestClearing` | integrations/gnome/extension.js:527-536 | a new clear intent behind a fence |
| `BridgeRuntime.GnomeBridgeRuntime.RequestReporting` | integrations/gnome/extension.js:508-525 | a new report intent without a fence, or a clear for a window that cannot be reported |
| `BridgeRuntime.GnomeBridgeRuntime.FindGameWindow` | integrations/gnome/extension.js:768-790 | the focused candidate, else the only one of that rectangle, else the only one |
| `BridgeRuntime.GnomeBridgeRuntime.PlaceOverlayWindow` | integrations/gnome/extension.js:792-841 | a game that cannot be placed is cleared |
| `BridgeRuntime.GnomeBridgeRuntime.ApplySnapshotJson` | integrations/gnome/extension.js:640-690 | stale and malformed snapshots, and any game behind a fence, are refused |
| `BridgeRuntime.GnomeBridgeRuntime.ApplyActiveGame` | integrations/gnome/extension.js:691-726 | the game of a snapshot is taken over, or cleared, or the focused window is reported instead |
| `BridgeRuntime.GnomeBridgeRuntime.HandleFocusWindow` | integrations/gnome/extension.js:429-454 | the overlay, the game or a new candidate got the focus |
| `BridgeRuntime.GnomeBridgeRuntime.ForgetWindows` | integrations/gnome/extension.js:293-299 | windows and mode are forgotten |
| `BridgeRuntime.GnomeBridgeRuntime.ForgetRequests` | integrations/gnome/extension.js:298-306 | requests, fence and timers are forgotten |
| `BridgeRuntime.GnomeBridgeRuntime.ForgetCore` | integrations/gnome/extension.js:273-307 | all of that, with a new generation and serial |
| `BridgeRuntime.GnomeBridgeRuntime.DetachCore` | integrations/gnome/extension.js:273-307 | everything about the Core that went is forgotten, except the replies to come |
| `BridgeRuntime.GnomeBridgeRuntime.AttachCompositor` | integrations/gnome/extension.js:309-328 | all windows are watched, and the last overlay among them is the overlay |
| `BridgeRuntime.GnomeBridgeRuntime.AttachCore` | integrations/gnome/extension.js:234-266 | a fresh generation that asks for a snapshot |
| `BridgeRuntime.GnomeBridgeRuntime.OnCoreAppeared` | integrations/gnome/extension.js:234-266 | is the step CoreAppeared, and keeps the invariant |
| `BridgeRuntime.GnomeBridgeRuntime.OnCoreVanished` | integrations/gnome/extension.js:268-271 | is the step CoreVanished, and keeps the invariant |
| `BridgeRuntime.GnomeBridgeRuntime.Stopping` | integrations/gnome/extension.js:219-232 | is the step Stop, and keeps the invariant |
| `BridgeRuntime.GnomeBridgeRuntime.OnFocusChanged` | integrations/gnome/extension.js:407-427 | is the step FocusNotified, and keeps the invariant |
| `BridgeRuntime.GnomeBridgeRuntime.OnGraceTimeout` | integrations/gnome/extension.js:407-427 | is the step GraceTimeout, and keeps the invariant |
| `BridgeRuntime.GnomeBridgeRuntime.OnIdentityChanged` | integrations/gnome/extension.js:360-371 | a window changed its identity |
| `BridgeRuntime.GnomeBridgeRuntime.OnWindowCreated` | integrations/gnome/extension.js:313-316 | is the step WindowCreated, and keeps the invariant |
| `BridgeRuntime.GnomeBridgeRuntime.OnWindowChanged` | integrations/gnome/extension.js:373-386 | is the step ChangeNotified, and keeps the invariant |
| `BridgeRuntime.GnomeBridgeRuntime.OnWindowUnmanaged` | integrations/gnome/extension.js:388-405 | is the step UnmanagedNotified, and keeps the invariant |
| `BridgeRuntime.GnomeBridgeRuntime.ForgetWindow` | integrations/gnome/extension.js:388-405 | a window that went is forgotten, and cleared if it mattered |
| `BridgeRuntime.GnomeBridgeRuntime.OnKeepalive` | integrations/gnome/extension.js:253-262 | is the step KeepaliveTimeout, and keeps the invariant |
| `BridgeRuntime.GnomeBridgeRuntime.OnRetryTimeout` | integrations/gnome/extension.js:617-636 | is the step RetryTimeout, and keeps the invariant |
| `BridgeRuntime.GnomeBridgeRuntime.RetryCandidate` | integrations/gnome/extension.js:617-636 | the candidate is reported again with one retry less |
| `BridgeRuntime.GnomeBridgeRuntime.OnSnapshotSignal` | integrations/gnome/extension.js:240-251 | is the step Signal, and keeps the invariant |
| `BridgeRuntime.GnomeBridgeRuntime.Answering` | integrations/gnome/extension.js:571-597 | what a reply does, by the call it answers |
| `BridgeRuntime.GnomeBridgeRuntime.OnAnswer` | integrations/gnome/extension.js:1047-1060 | is the step Answer, for any reply in the bag, and keeps the invariant |
| `Lifecycle.RefusedHasNoEffect` | crates/overcrow-control/src/lifecycle.rs:352-384 | a call fails before the save exactly if it has no effects at all |
| `Lifecycle.FailureCleansUp` | crates/overcrow-control/src/lifecycle.rs:386-425 | every failure of enable from the save onward, and every disable, ends with passive, stop and disable attempted in that order, whatever else fails |
| `Lifecycle.EnableSucceeds` | crates/overcrow-control/src/lifecycle.rs:352-399 | a successful enable leaves exactly the requested settings, enabled, the unit on, and save, integration and unit attempted in that order |
| `Lifecycle.EnableRefused` | crates/overcrow-control/src/lifecycle.rs:352-384 | enabling leaves the world as it was, the log included, if and only if the lock is lost, the settings are invalid, nothing is selected, they could not be loaded cleanly, a manual game is stale or the preflight fails; the first of these in that order is reported, and nothing else |
| `Lifecycle.EnableAnswered` | crates/overcrow-control/src/lifecycle.rs:384-399 | otherwise saving as enabled is the first action, and it succeeds if and only if save, integration and unit command do |
| `Lifecycle.RollbackAnswered` | crates/overcrow-control/src/lifecycle.rs:384-481 | a failed enabling reports the step that failed and exactly what its rollback left undone, and leaves file and unit accordingly |
| `Lifecycle.DisableAnswered` | crates/overcrow-control/src/lifecycle.rs:401-427 | disabling reports exactly what stays undone, and leaves file and unit accordingly |
| `Lifecycle.RollbackRestores` | crates/overcrow-control/src/lifecycle.rs:457-481 | a rollback without cleanup failures leaves the settings disabled and the unit off |
| `Lifecycle.DisableSucceeds` | crates/overcrow-control/src/lifecycle.rs:401-425 | a disable without errors leaves the loaded settings, disabled, and the unit off |
| `Lifecycle.SelectionsKept` | crates/overcrow-control/src/lifecycle.rs:352-481 | whatever fails, everything but the enabled flag is kept on disk, except that an enable whose save replaced the file installs the requested settings |
| `Lifecycle.CleanMeansAgreement` | crates/overcrow-control/src/lifecycle.rs:352-425 | after a call that reports nothing left undone, the persisted flag and the unit agree if and only if the call got as far as the save or they agreed before |
| `Lifecycle.RefusalRepairsNothing` | crates/overcrow-control/src/lifecycle.rs:352-384 | reporting nothing left undone is not enough by itself: for any later failures, enabling the default settings, which select nothing, while the unit runs although they say disabled is refused, reports no cleanup failure, and leaves flag and unit in disagreement |
| `Lifecycle.RunAgrees` | crates/overcrow-control/src/lifecycle.rs:352-481 | over any run of calls with any failures: flag and unit agree as long as the last call that did anything reported nothing left undone |
| `Lifecycle.LifecycleController.constructor` | crates/overcrow-control/src/lifecycle.rs:335-350 | a controller over a world with nothing attempted |
| `Lifecycle.LifecycleController.SaveSettings` | crates/overcrow-control/src/lifecycle.rs:386-391 | saves, or fails before or after replacing the file |
| `Lifecycle.LifecycleController.RunCleanup` | crates/overcrow-control/src/lifecycle.rs:483-493 | attempts passive, stop and disable in order and collects the errors |
| `Lifecycle.LifecycleController.RollbackAfterEnable` | crates/overcrow-control/src/lifecycle.rs:457-481 | writes the settings back as disabled unless they cannot be loaded, then cleans up |
| `Lifecycle.LifecycleController.EnableWith` | crates/overcrow-control/src/lifecycle.rs:352-399 | checks, preflight, save, integration and unit in order, with rollback from the save onward |
| `Lifecycle.LifecycleController.DisableWith` | crates/overcrow-control/src/lifecycle.rs:401-425 | writes the settings back as disabled, cleans up, and reports all errors |
| `UpdatesSafety.RunKeeps` | crates/overcrow-control/src/updates.rs:356-553 | over every interleaving of any number of threads: operations never overlap; transient phases occur only while one is active; an error is present exactly in phase Failed; the latest version is that of the candidate; each resting phase fits the candidate (in Available it is installable, in Manual it is not, in UpToDate there is none, in Installed and RestartRequired the installer was the last thing to run, on it); and every recorded event is lawful: the installer runs only on the last query's installable candidate, directly after its download and a successful stop |
| `UpdatesSafety.StepKeeps` | crates/overcrow-control/src/updates.rs:356-601 | every critical section, outside return and attempt to begin keeps that |
| `UpdatesSafety.QueriesSpaced` | crates/overcrow-control/src/updates.rs:358-374 | with a clock that does not run backwards any two release queries are at least 60 s apart, and 6 h if the later one is automatic |
| `UpdatesService.CheckAlone` | crates/overcrow-control/src/updates.rs:356-426 | the steps of a check of one thread, run in a row, amount to the whole check, or to nothing if the guard is taken |
| `UpdatesService.CheckAnswered` | crates/overcrow-control/src/updates.rs:356-426 | a check that gets the guard makes a query if and only if none was attempted before, the last attempt lies after now, or at least 60 s before it (6 h if nobody asked); then phase, candidate, error, version and time are those of the answer, and otherwise nothing changes |
| `UpdatesService.InstallAlone` | crates/overcrow-control/src/updates.rs:429-482 | the same for an installation |
| `UpdatesService.InstallAnswered` | crates/overcrow-control/src/updates.rs:429-482 | an installation that gets the guard does nothing without a packaged candidate or on the manual target; otherwise it downloads, stops the runtime and runs the installer, each if and only if what comes before succeeded, and shows the first error or the installer's result |
| `UpdatesService.RunOnIsRun` | crates/overcrow-control/src/updates.rs:484-491 | running on step by step is running |
| `UpdatesService.UpdateController.constructor` | crates/overcrow-control/src/updates.rs:267-308 | idle, with nothing known; the invariant holds |
| `UpdatesService.UpdateController.BeginOperation` | crates/overcrow-control/src/updates.rs:484-491 | succeeds exactly if no operation is active, and one is then |
| `UpdatesService.UpdateController.PublishFailure` | crates/overcrow-control/src/updates.rs:510-544 | phase Failed with the error, and the guard given back |
| `UpdatesService.UpdateController.Check` | crates/overcrow-control/src/updates.rs:356-426 | does exactly what its steps of the machine do, keeps the invariant, and returns nothing exactly if busy |
| `UpdatesService.UpdateController.InstallAvailableUpdate` | crates/overcrow-control/src/updates.rs:429-482 | the same, returning nothing also if nothing can be installed |
| `UpdateRelease.SelectAsset` | crates/overcrow-control/src/update_release.rs:209-225 | the one asset of the expected name if it is valid, none if there is none, an error exactly if there are several |
| `UpdateRelease.SelectRelease` | crates/overcrow-control/src/update_release.rs:132-177 | an error exactly if the index is too long or some release has too many assets or is eligible with a bad page or ambiguous asset; else the first release among the eligible ones of greatest version, strictly above the current one, or nothing exactly if none is eligible |
| `UpdateRelease.OfferedIsFit` | crates/overcrow-control/src/update_release.rs:150-161 | what is offered is no draft, is newer than what runs, has a flag that agrees with its version, and is no pre-release in the stable channel |
| `UpdateRelease.FitIsOffered` | crates/overcrow-control/src/update_release.rs:150-176 | a release like that is never passed over for an older one or for none |
| `UpdateRelease.RefusedExactly` | crates/overcrow-control/src/update_release.rs:132-177 | the index is refused if and only if it has more than 20 releases, one with more than 20 assets, or one fit to be offered without a valid page or with the expected asset twice |
| `UpdateRelease.SelectionUnique` | crates/overcrow-control/src/update_release.rs:132-177 | that leaves one answer only |
| `UpdateRelease.SelectionIsFixpoint` | crates/overcrow-control/src/update_release.rs:132-177 | with the selected version as current one, in the channel it implies, the same index gives no update and no error |
| `EventLog.Conservation` | crates/overcrow-core/src/event_log.rs:137-213 | over any run, the rectangle changes within games equal the sum of 1 + suppressed over events logged as they happen, plus suppressed over flushed events, plus the pending count, plus the changes that came while the 64-bit counter was full |
| `EventLog.NothingLost` | crates/overcrow-core/src/event_log.rs:137-213 | the sum comes out without lost changes if and only if at no point of the run more than 2^64 - 1 changes wait for an event, as told from the observations alone |
| `EventLog.ShakingLosesAChange` | crates/overcrow-core/src/event_log.rs:182-186 | changes can be lost: a game seen 2^64 + 2 times within one instant, shaking between two rectangles, loses one |
| `EventLog.NothingDropped` | crates/overcrow-core/src/event_log.rs:182-186 | nothing is lost before 2^64 changes |
| `EventLog.LogsExactlyWhenDue` | crates/overcrow-core/src/event_log.rs:169-202 | within one game, geometry is logged if and only if there is a change now or one that waits, and the game had no geometry event yet, or had its last one at least 1 s ago or in the last second the clock can tell |
| `EventLog.CurrentRectIsKnown` | crates/overcrow-core/src/event_log.rs:137-213 | while a game is shown its rectangle is the pending one or, if none is, the one logged last |
| `EventLog.LogsTheNews` | crates/overcrow-core/src/event_log.rs:137-167 | every observation logs at most one geometry event, then a detected, changed or cleared game exactly if that is what differs from the observation before, then the mode exactly if it differs |
| `EventLog.OneEventPerSecond` | crates/overcrow-core/src/event_log.rs:169-202 | within one game, geometry events are at least 1 s apart, closing flushes aside, unless the earlier one lies in the last second the clock can tell |
| `EventLog.LastSecondIsNotLimited` | crates/overcrow-core/src/event_log.rs:179 | in the last second of the clock there is no limit: there a shaking game is logged every time, all at one instant |
| `EventLog.DeadlineFollowsLastEvent` | crates/overcrow-core/src/event_log.rs:169-213 | the deadline is always that of the last geometry event of the game shown |
| `EventLog.CoreEventTracker.constructor` | crates/overcrow-core/src/event_log.rs:128-134 | a blank tracker |
| `EventLog.CoreEventTracker.Observe` | crates/overcrow-core/src/event_log.rs:137-167 | state and events of one observation |
| `EventLog.CoreEventTracker.ObserveGeometry` | crates/overcrow-core/src/event_log.rs:169-187 | logs the change with the suppressed count, or holds it back |
| `EventLog.CoreEventTracker.FlushDueGeometry` | crates/overcrow-core/src/event_log.rs:189-202 | logs what is held back once the deadline is over |
| `EventLog.CoreEventTracker.FlushPendingGeometry` | crates/overcrow-core/src/event_log.rs:204-208 | logs what is held back |
| `EventLog.CoreEventTracker.ResetGeometryLimit` | crates/overcrow-core/src/event_log.rs:210-213 | no deadline and nothing held back |
| `Diagnostics.CutsWholeCharacters` | crates/overcrow-control/src/diagnostics.rs:639-662 | text cut to a limit is valid text and so is what is cut off; it is the longest prefix of whole characters that fits, and gives away at most three bytes |
| `Diagnostics.Utf8PrefixEnd` | crates/overcrow-control/src/diagnostics.rs:656-662 | the loop finds the last character boundary within the limit |
| `Diagnostics.BoundedText` | crates/overcrow-control/src/diagnostics.rs:639-645 | that prefix, and whether anything was cut |
| `Diagnostics.BoundedOwnedText` | crates/overcrow-control/src/diagnostics.rs:647-654 | the same, by truncating |
| `Diagnostics.BoundedWarning` | crates/overcrow-control/src/diagnostics.rs:590-604 | one warning within 255 bytes and the bytes left; the running subtraction never underflows |
| `Diagnostics.BoundedOwnedWarning` | crates/overcrow-control/src/diagnostics.rs:544-558 | the same for an owned warning |
| `Diagnostics.BoundedWarningSources` | crates/overcrow-control/src/diagnostics.rs:560-588 | the borrowed form computes the same bounded sources |
| `Diagnostics.BoundedOwnedWarningSources` | crates/overcrow-control/src/diagnostics.rs:510-542 | as the owned form |
| `Diagnostics.SourcesFit` | crates/overcrow-control/src/diagnostics.rs:510-588 | source warnings come to at most 1024 bytes, at most 16 discovery warnings, at most 255 bytes each |
| `Diagnostics.SourcesReportCuts` | crates/overcrow-control/src/diagnostics.rs:510-588 | truncation is reported exactly if the warnings come out changed |
| `Diagnostics.SourcesKeep` | crates/overcrow-control/src/diagnostics.rs:510-588 | every warning is kept up to the last whole character within 255 bytes and within what those before it left of 1024, and none of the first 16 is left out while any bytes are left |
| `Diagnostics.SourcesIdempotent` | crates/overcrow-control/src/diagnostics.rs:510-588 | bounding bounded sources changes and cuts nothing |
| `Diagnostics.Normalize` | crates/overcrow-control/src/diagnostics.rs:111-148 | the field by field update computes the normalised input |
| `Diagnostics.NormalizationIdempotent` | crates/overcrow-control/src/diagnostics.rs:111-148 | normalising a normalised input changes nothing |
| `Diagnostics.NormalizationBounds` | crates/overcrow-control/src/diagnostics.rs:111-148 | every field is within its limit, and each flag is raised exactly if it was before or something of its part came out changed |
| `Diagnostics.NormalizationKeeps` | crates/overcrow-control/src/diagnostics.rs:111-148 | texts are cut exactly at the last whole character within their limit, paths are dropped exactly if they are too long or no text, and counts stop at 999999999 |
| `Diagnostics.SyncModel` | crates/overcrow-control/src/diagnostics.rs:151-174 | taking over the model through the borrowed form equals bounding the owned fields |
| `Diagnostics.SyncKeepsNormal` | crates/overcrow-control/src/diagnostics.rs:151-174 | a normalised input stays normalised |
| `Diagnostics.BoundItem` | crates/overcrow-control/src/diagnostics.rs:609-625 | one item within its limits and the bytes left for warnings |
| `Diagnostics.FinalizeItems` | crates/overcrow-control/src/diagnostics.rs:606-637 | the in-place loop and the notice compute the rendered items |
| `Diagnostics.RenderedKeeps` | crates/overcrow-control/src/diagnostics.rs:606-625 | every item is kept with its level, its texts up to the last whole character within their limits, a warning's also within what the warnings before it left |
| `Diagnostics.RenderedFits` | crates/overcrow-control/src/diagnostics.rs:606-637 | rendered warnings, the truncation notice included, come to at most 1536 bytes and every item is within its limits; if nothing was cut before and every item fits, the warnings also together, the items are untouched, and in every other case the notice ends them |
| `Diagnostics.UncutExactlyWhenFit` | crates/overcrow-control/src/diagnostics.rs:606-625 | nothing is cut if and only if every item is within its limits and the warnings together fit the bytes left for them |

## Left out

- File, D-Bus, systemd, HTTP and procfs access, hashing, downloading and installing: their answers are parameters.
- The React and Tauri user interface, the command wrappers, presentation text and compatibility tables: they forward calls and look up fixed texts, and decide nothing.
- `CoreState` snapshots: telemetry and stopwatch fields of the protocol crate's own state never leave their defaults and are not modelled there.
- Core watch channels: operations are atomic, so what a watcher could see between two publications of one operation is not modelled, nor are shortcut settings and availability.
- Core report time: a bridge report is given the time it is applied; that the service reads the clock before it takes the lock is not modelled.
- CoreHistory.SessionNeverGoesBack: assumes clock readings in the order of the operations.
- Process texts: whether a name looks game related and which Steam id an environment names are inputs of the process table.
- Bridge shortcuts: grabbing, releasing and reporting accelerators; a late reply can still apply definitions after the game has gone, so no claim is made.
- Bridge compositor calls: placing and activating windows are no-ops, handlers neither throw nor re-enter each other, and window normalisation is a function that stays the same within one handler.
- BridgeRuntime.GnomeBridgeRuntime.ApplySnapshotJson: JSON decoding is done before it; a payload is malformed, has a bad mode, or carries a revision, a mode and a game.
- BridgeRuntime.GnomeBridgeRuntime.OnAnswer: calls without a callback, which change nothing when answered, are not in the bag.
- Binary VDF numbers other than 32-bit integers are skipped by the walk and carry no meaning here.
- `read_binary_metadata` and `read_shortcuts`: finding profiles and files, and their warnings.
- Steam library lists, the text KeyValues parser, manifest contents and the final sort by folded name; discovery warnings, whose order does depend on the order of roots.
- SteamDiscovery.RetainBounded: returns the new set and flag instead of changing them in place, and is stated for a set that already holds the smallest of what was seen.
- Lifecycle error texts, and the status and snapshot queries.
- UpdateRelease.SelectRelease: tag, page and asset validation, asset names, JSON and the order of versions are inputs; asset names are not claimed to tell versions apart.
- Update log lines on the first failure and on recovery, the observer callbacks beyond the states they are given, error codes, and opening the release page.
- Panics in update code: outside calls are taken to return. One that panics would release the operation guard while a transient phase is shown, so that phase could then be seen with no operation active.
- UpdatesService.UpdateController.Check: outside calls answer at once; that other threads step in between is covered by the machine, where the guard keeps them out.
- EventLog.CoreEventTracker.Observe: identifiers arrive already bounded and redacted, and the text of log lines is not modelled.
- Diagnostics: reading the environment, portal checks and the wording of items.
- 64-bit `usize` is assumed wherever a length is compared with a limit.
