# Verified model of autopeer-agent

`autopeer-agent` runs on a DN42 node. It keeps a WebSocket connection to a center, writes the WireGuard and BIRD
configurations of the node's peers as the center asks, remembers them in a store, and replaces its own binary when told
to. This project models the parts of it that hold state and proves what they keep, what they promise and where the
documentation promises more than the code does.

Nothing here runs the agent. Every external command is an outcome chosen by a *world* (or a *scenario*, or a *progress*
value): it succeeds, fails, or is the last thing that happens before the process dies. A theorem over all worlds is a
theorem over all failures and all crash points. A *smooth* world is one in which every command succeeds.

## Layout

| files | what they hold |
|---|---|
| `Options.dfy`, `Decimal.dfy` | options; decimal printing and reading; default interface, protocol and file names |
| `Host.dfy`, `Reconciler.dfy` | the node (WireGuard files, interfaces that are up, BIRD files, what BIRD has loaded, store) and `peer.add`, `peer.remove`, `peers.sync` as functions on it |
| `Agent.dfy` | the same as a class whose methods change its fields step by step, each proved equal to its function |
| `Payloads.dfy` | what a node holds of a peer, field by field from the payload |
| `PeerAdd.dfy`, `SyncSteps.dfy`, `PeersSync.dfy`, `SyncTheorems.dfy`, `Effects.dfy`, `Retention.dfy` | what adds, removes and syncs do in any world, and what peers that stay keep |
| `SyncFixpoint.dfy`, `Reloading.dfy`, `CrashRestart.dfy`, `Orphans.dfy`, `Runs.dfy` | repeated syncs, what BIRD has loaded, crashes, files that no record names, whole runs of messages |
| `Store.dfy` | the peers bucket and its transactions |
| `Regex.dfy`, `BirdConfig.dfy`, `Scanning.dfy`, `Import.dfy`, `ImportRoundTrip.dfy` | the regular expressions, the BIRD template and its scanner, both directory scans, the import join, and writing followed by importing |
| `BirdDetails.dfy` | route counts of `birdc show protocols all` |
| `Client.dfy`, `Protocol.dfy`, `ProtocolInvariant.dfy`, `ProtocolTheorems.dfy` | the WebSocket client's critical sections as methods, its goroutines as interleaved steps that apply them, the invariant of every run, and what follows |
| `Crypto.dfy` | framing and key exchange over abstract primitives |
| `Updates.dfy`, `Updater.dfy`, `UpdateSafety.dfy`, `Downloads.dfy` | the over-the-air update as file-system steps |

`dafny verify dfyconfig.toml` checks the whole project.

## Where the code and its documentation differ

The model follows the code.

- A refused `peer.add` can leave a file behind (`PeerAdd.RefusedAddResidue` says exactly when, `PeerAdd.UpFailureLeavesFile`
  shows one); the documentation says a partial peering is rolled back.
- A BIRD file cut short by a crash is never written again (`CrashRestart.TornFileIsNeverRepaired`), nor is a WireGuard
  file of an interface that was up without one (`CrashRestart.CrashCanTearWg`; `PeerAdd.DownFailureLeavesUp` shows how
  an interface gets there). `CrashRestart.CrashThenSync` says exactly when a rerun makes up for a crash.
- A failed `birdc configure`, or one the process dies at, is not retried by a sync that has nothing to write
  (`Reloading.ConfigureIsNotRetried`, `CrashRestart.CrashCanLeaveUnloaded`).
- A BIRD file is looked up under the name the center sends and written under the name of the AS number, so a refused
  write for one peer can take away the file another is found by (`Retention.FoundFileIsLost`;
  `Retention.RetainedSurviveIff` says exactly when peers that stay keep what they have).
- `peer.remove` of an id that is not stored tears down the default interface of the AS number it carries, whoever is on
  it (`Runs.StrayRemove`).
- A peer that changes its interface or AS number, or asks for a custom BIRD file that is missing, leaves a file that no
  record names (`Orphans.WgStaysInStepIff` and `Orphans.BirdStaysInStepIff` say exactly when a sync does not).
- Teardown of stale records runs after creation, so a peer announced under a new id loses what the sync reports as
  applied (`SyncTheorems.RenamedPeerIsLost`).
- Frames other than the key exchange can be queued in the clear before the handshake completes
  (`ProtocolTheorems.ClearBehindSealed`); `docs/protocol.md` says that only key-exchange messages flow then.
- The agent combines its own nonce with the center's, not the nonce repeated in `key.auth_ack`; with the documented
  center the two are the same, and `KeyExchange.AuthAgrees` is about that center.
- `agent.rollback` looks for the backup of the version stored now, which the update and the restart have already
  overwritten: `UpdateSafety.RollbackRestoresIff` says exactly when it restores the previous binary, and
  `UpdateSafety.FirstUpgradeCannotRollBack` shows the ordinary upgrade for which it does not.

## Model

| member | source | states |
|---|---|---|
| `Decimal.PrintInjective` | internal/wg/wg.go:114-116 | no two integers print alike, so decimal names never collide |
| `Names.NamesInjective` | internal/wg/wg.go:114-116 | two AS numbers that share a default interface, protocol or BIRD file name are equal |
| `Host.AddWg` | internal/wg/wg.go:58-103 | adding touches one interface and its file only; a refused settings record changes nothing; success means whole file and interface up |
| `Host.RemoveWg` | internal/wg/wg.go:137-149 | removing clears at most one interface and its file, and both if the two commands succeed |
| `Host.AddBird` | internal/bird/bird.go:62-111 | adding touches only the default file of the AS number, and BIRD's loaded files change only to the files present |
| `Host.RemoveBird` | internal/bird/bird.go:131-143 | removing clears at most that file and reloads |
| `Host.ReplaceAll` | internal/store/store.go:159-196 | the store swap puts the whole map or changes nothing |
| `AgentProcess.Agent.AddPeerWithIface` | internal/wg/wg.go:58-103 | the step-by-step method ends in exactly the node and result of the function, for every world |
| `AgentProcess.Agent.RemovePeerByIface` | internal/wg/wg.go:137-149 | as above for removal |
| `AgentProcess.Agent.AddBirdPeer` | internal/bird/bird.go:62-111 | as above for open, write, check, cleanup and reload |
| `AgentProcess.Agent.RemoveBirdPeer` | internal/bird/bird.go:131-143 | as above for removal and reload |
| `AgentProcess.Agent.HandlePeerAdd` | internal/handler/handler.go:116-168 | the handler with its rollback paths ends in the node and reply of `Reconciler.Add` |
| `AgentProcess.Agent.HandlePeerRemove` | internal/handler/handler.go:170-224 | the handler ends in the node and reply of `Reconciler.Remove` |
| `AgentProcess.Agent.CreatePeers` | internal/handler/handler.go:344-410 | the loop over the payload ends in the node, desired map and report of `Reconciler.Create` |
| `AgentProcess.Agent.CollectStale` | internal/handler/handler.go:412-421 | the walk of the store collects the stale records in cursor order |
| `AgentProcess.Agent.TeardownPeers` | internal/handler/handler.go:426-438 | the teardown loop ends in the node of `Reconciler.Teardown` |
| `AgentProcess.Agent.HandlePeersSync` | internal/handler/handler.go:318-452 | the whole handler ends in the node and report of `Reconciler.Sync` |
| `PeerAdd.AddIsConfined` | internal/handler/handler.go:116-168 | in every world, `peer.add` touches only the peer's interface, its file, its BIRD file and its store key; the store changes only on success; it answers that the peer is active exactly if its id is stored and its interface up; success means a whole WireGuard file with the payload's key, endpoint, port, MTU and preshared key, the interface up, a whole BIRD file with its address and interface, loaded, and a record with its fields |
| `PeerAdd.RefusedAddEndsDown` | internal/handler/handler.go:130-164 | while `wg-quick down` works, a refused add leaves the interface down |
| `PeerAdd.RefusedAddResidue` | internal/handler/handler.go:130-164 | with working cleanup, a refused add of fresh names leaves the files as they were if and only if the world's answers to its commands, in the order issued, do not leak: a file that was opened is not written or its interface not started, or a BIRD file that was opened is not written or is good and not loaded; each leaking stage leaves exactly one file |
| `PeerAdd.UpFailureLeavesFile` | internal/wg/wg.go:82-98 | where `wg-quick up` fails and nothing else does, every valid add of fresh names is refused and leaves its WireGuard file |
| `PeerAdd.DownFailureLeavesUp` | internal/wg/wg.go:137-149 | where `wg-quick down` fails and nothing else does, removing an interface leaves it up without its file |
| `PeerAdd.AddThenRemove` | internal/handler/handler.go:170-224 | a successful add of fresh names in any world, then a remove that meets no failure, restores WireGuard files, interfaces, BIRD files and store exactly |
| `Effects.RemoveDoes` | internal/handler/handler.go:170-224 | in every world, `peer.remove` answers that the peer is unknown exactly if neither payload nor store has an AS number, and then changes nothing; otherwise it tries to remove the BIRD file, reload, stop the interface, remove its file and delete the record, in this order, each whatever became of those before unless the process died, on the record's names or else the AS number's defaults |
| `Effects.RemoveClears` | internal/handler/handler.go:196-221 | so a remove of a stored peer that the process lives through ends with the interface down, its file gone and the record gone wherever those commands work, whatever BIRD answers, and with the BIRD file gone where that removal works, whatever WireGuard answers |
| `SyncSteps.StaleSound` | internal/handler/handler.go:415-421 | the stale records are exactly those of stored peers that are not desired |
| `SyncSteps.TeardownTearsDown` | internal/handler/handler.go:426-438 | in every world, teardown writes nothing and clears only names that a stale record carries |
| `SyncSteps.SmoothTeardown` | internal/handler/handler.go:426-438 | when commands succeed, every name a stale record carries ends clear |
| `Effects.TeardownDoes` | internal/handler/handler.go:426-438 | in every world, the teardown of one record tries the same commands on the names it carries, in the same order, each whatever became of those before |
| `Effects.DroppedEndClear` | internal/handler/handler.go:412-438 | in every world that the process lives through, a stored peer that is not desired ends with its interface down and without its file if those commands work, whatever BIRD and the swap answer, and without its BIRD file if that removal works |
| `PeersSync.WgOutcome` | internal/handler/handler.go:344-410 | in every world, among peers with interfaces of their own, whether one is skipped or kept is decided by the node before the sync, only its own round touches its interface, and with distinct ids its place in the report is the outcome of that round |
| `PeersSync.PeerOutcome` | internal/handler/handler.go:344-410 | in every world, among peers with interfaces and default BIRD files of their own, none of which looks for its file under another's default, what the loop does to one peer's interface and files is decided by the node before the sync, and only that peer's own round touches them |
| `SyncTheorems.SyncEnds` | internal/handler/handler.go:412-438 | in every world, how swap and teardown end, seen from the state after creation |
| `SyncTheorems.ReportPartitionsStore` | internal/handler/handler.go:339-423 | whatever commands fail and whatever names the peers share, with distinct ids, once the swap commits `applied` and `failed` partition the keys of the store, without repeats |
| `SyncTheorems.StoreIsDesired` | internal/handler/handler.go:339-423 | with distinct interfaces and ids, whatever BIRD files the peers name and whatever commands fail, once the swap commits the store is exactly the peers with an AS number, an id, and a key or a WireGuard file before the sync, each under a record with the fields of its payload and the defaults where it has none |
| `SyncTheorems.AppliedMeansApplied` | internal/handler/handler.go:360-410 | in every world, with distinct interfaces and ids, an applied peer whose interface no dropped record names has its WireGuard file, as it was or, where the interface had none or was down, whole with the payload's fields, and is up if it carries a key; and, where BIRD files are separate and no dropped record names its own, it has that: the one it was found by as it was, or the default one whole with the payload's fields |
| `Effects.SmoothReport` | internal/handler/handler.go:344-392 | where commands succeed, with distinct interfaces and ids, a sync reports exactly the peers it acts on, as failed exactly those with a key and no endpoint whose interface has no file or is down |
| `Effects.TunnelFirst` | internal/handler/handler.go:360-388 | a round deals with WireGuard before BIRD: dying at its first command leaves the node as it was |
| `Effects.SyncAloneIsAdd` | internal/handler/handler.go:344-410 | where commands succeed and the names are free, announcing one peer in a sync leaves the files, interfaces, loaded files and record that `peer.add` of the same payload leaves |
| `SyncTheorems.AppliedSurvivesIff` | internal/handler/handler.go:375-438 | when commands succeed, with distinct interfaces and ids, an applied peer ends with its WireGuard file, and up if it carries a key, if and only if no record to be dropped names its interface; with the BIRD file it was found by if and only if none names that; and, where BIRD files are separate, with the default one written for it if and only if none names that |
| `SyncTheorems.RenamedPeerIsLost` | internal/handler/handler.go:415-438 | a peer announced under a new id with its default names is reported applied and loses both files |
| `Retention.RetainedSurvive` | internal/handler/handler.go:344-438 | whatever fails and wherever it dies, with distinct interfaces and no retained peer found by a file to be written for another, nothing that a retained peer already had is removed unless a dropped record names it, no BIRD file it is found by is rewritten, and no WireGuard file of an interface that is up |
| `Retention.RetainedSurviveIff` | internal/handler/handler.go:344-438 | on a live node, with distinct interfaces, every retained peer keeps what it had in every world if and only if no dropped record names what a retained peer has and no retained peer is found by a file that is to be written for another |
| `Retention.FoundFileIsLost` | internal/bird/bird.go:102-108 | with no record dropped, distinct interfaces and distinct AS numbers, where only `birdc configure check` fails: a peer found by the default file of another AS, whose own peer asks for a custom file that is missing, is reported applied and loses its file |
| `SyncFixpoint.SyncConverges` | internal/handler/handler.go:339-438 | with distinct interfaces, an empty `failed` and no dropped record naming what a retained peer relies on, whatever BIRD files the peers share, whatever commands of the teardown fail and even if the process dies there, every retained peer ends configured and a committed store as desired; when commands succeed every stale name ends clear |
| `SyncFixpoint.SyncSettles` | internal/handler/handler.go:375-382 | where BIRD files are separate as well, a file written for a retained peer is whole, and the next sync misses a BIRD file exactly for a custom name that was absent |
| `SyncFixpoint.SyncIsFixpoint` | internal/handler/handler.go:339-438 | after a sync that committed with an empty `failed`, in any world, with distinct interfaces and no dropped record naming what a retained peer relies on, a second identical one changes nothing, whatever its own commands would answer and whatever BIRD files the peers share, if every retained peer is found by its BIRD file when it starts, as it is if no custom one was missing before the first |
| `SyncFixpoint.FoundAgain` | internal/handler/handler.go:375-382 | after such a sync every retained peer is found by its BIRD file if no custom one was missing, and only then where BIRD files are separate |
| `SyncFixpoint.SmoothFixpointIff` | internal/handler/handler.go:375-382 | after such a sync the second one, if its own commands succeed, changes no interface, no WireGuard file and no record, and no BIRD file if and only if each default file it writes again is as the last peer it is written for would write it |
| `SyncFixpoint.SyncIsFixpointWhenSmooth` | internal/handler/handler.go:375-382 | with distinct default BIRD files, whatever custom ones are missing and whoever's default files their names are, the second sync changes no file, interface or record, if its own commands succeed |
| `SyncFixpoint.FixpointIffFound` | internal/handler/handler.go:375-382 | after such a sync, whatever BIRD files the peers share, the second one leaves them alone in every world if and only if every retained peer is found by its BIRD file when it starts |
| `SyncFixpoint.FixpointIffFilesFound` | internal/handler/handler.go:375-382 | where BIRD files are separate, that is to say that no custom file was missing before the first sync |
| `CrashRestart.CrashThenSync` | internal/handler/handler.go:344-423 | with distinct interfaces, dying at any command before the commit, then the same sync with commands that succeed, reaches the uninterrupted interfaces and store; the WireGuard files if and only if the crash tore none of an interface that was up without one; where BIRD files are separate, the BIRD files if and only if none was torn; and, once the BIRD files agree, what BIRD has loaded if and only if the crash left no file unloaded that the rerun does not touch; torn files that a dropped record names do not count |
| `CrashRestart.CrashBetweenCalls` | internal/handler/handler.go:412-414 | with distinct interfaces and distinct default BIRD files, even where a peer is looked up under another's default file, a crash between any two manager calls before the commit, then the same sync, reaches the uninterrupted final state: files, interfaces, store and what BIRD has loaded |
| `CrashRestart.CrashAfterCommit` | internal/handler/handler.go:423-438 | a crash anywhere after the commit leaves the store as the loop desired it, which with distinct interfaces the node before the sync decides, and at most stale artifacts: every interface and file that no dropped record names is as creation left it, those of retained peers among them, and what a dropped record names is as it was or gone |
| `CrashRestart.StaleStaysBehind` | internal/handler/handler.go:415-438 | what such a crash leaves of a dropped record, interface or file, no rerun of the sync clears, unless the payload or a desired record names it |
| `CrashRestart.CrashCanTear` | internal/bird/bird.go:86-93 | dying while a missing BIRD file is written leaves it torn |
| `CrashRestart.CrashCanTearWg` | internal/wg/wg.go:82-98 | dying while the WireGuard file of an interface that is up without one is written leaves it torn, and a rerun finds nothing to write for the peer |
| `CrashRestart.CrashCanLeaveUnloaded` | internal/bird/bird.go:104-110 | dying at `birdc configure` after a missing file was written leaves it whole and unloaded, where a rerun has nothing to load it for |
| `CrashRestart.TornFileIsNeverRepaired` | internal/handler/handler.go:375-382 | over any sequence of later syncs that announce the peer among others with distinct interfaces and ids, none of them written over the file it is found by and no dropped record naming what it has, whatever fails or dies, each reports the peer as applied and its BIRD file stays as it is, torn or whole |
| `Reloading.SyncReloads` | internal/bird/bird.go:104-110 | when commands succeed, with distinct interfaces, BIRD ends with its files loaded if and only if it had them loaded or the sync writes a file or tears a record down, as the node before the sync decides |
| `Reloading.ConfigureIsNotRetried` | internal/bird/bird.go:104-110 | after a sync in which only `birdc configure` failed, the same sync with commands that succeed reports the peer as applied, and BIRD still has not loaded its file |
| `SyncTheorems.SyncLeavesAlone` | internal/handler/handler.go:344-438 | in every world, an interface that neither payload nor store names is left alone |
| `SyncTheorems.SyncLeavesFileAlone` | internal/handler/handler.go:344-438 | so is a BIRD file that is no peer's default file and that no record names |
| `Orphans.WgStaysInStepIff` | internal/handler/handler.go:339-438 | from a node whose WireGuard files are those its store names, a sync of peers with distinct interfaces and ids that meets and reports no failure ends in one if and only if no dropped record names the interface of a peer that stays and every interface a retained record named before is named by some record after or torn down; interfaces that are up stay those with a file |
| `Orphans.BirdStaysInStepIff` | internal/handler/handler.go:339-438 | the same for BIRD files where they are separate, whether or not a peer without an endpoint is reported as failed, and in addition no custom file may have been missing |
| `Orphans.MovedPeerOrphansInterface` | internal/handler/handler.go:352-410 | an id announced again with another interface leaves the old one up, with its file and no record |
| `Orphans.RenumberedPeerOrphansFile` | internal/handler/handler.go:375-410 | an id announced again with another AS number leaves its old BIRD file, named by no record |
| `Orphans.DroppedPeerLeavesDefaultIff` | internal/handler/handler.go:375-382 | a peer announced and then dropped leaves the default BIRD file of its AS number, loaded and named by no record, if and only if it asked for a custom file that was missing |
| `Runs.AddKeeps` | internal/handler/handler.go:116-168 | an add that follows the naming scheme keeps files, interfaces and store in step |
| `Runs.RemoveKeeps` | internal/handler/handler.go:170-224 | so does a remove, of a known or an unknown id |
| `Runs.SyncKeeps` | internal/handler/handler.go:318-438 | so does a sync |
| `Runs.RunInvariant` | internal/handler/handler.go:116-452 | from an empty node, after any sequence of messages that follow one injective plan in which nobody's interface is the default of another's AS number, with succeeding commands, the WireGuard files, the interfaces up and the BIRD files are exactly those the store names, BIRD has loaded them, and each file is whole and holds its record's AS number and interface |
| `Runs.StrayRemove` | internal/handler/handler.go:185-219 | two messages that follow an injective plan in which one peer is on the default interface of another's AS number: adding the first, then removing the other, never added, leaves the first one's record without its WireGuard file |
| `Runs.RunInvariantIff` | internal/handler/handler.go:116-452 | over an injective plan every run that follows it ends with the node matching its store if and only if nobody's interface is the default of another's AS number |
| `PeerStore.Store.PutPeer` | internal/store/store.go:74-92 | one record is put, or nothing changes |
| `PeerStore.Store.GetPeer` | internal/store/store.go:94-110 | the record under the key, if it is there and reads |
| `PeerStore.Store.DeletePeer` | internal/store/store.go:112-125 | one record is gone, or nothing changes |
| `PeerStore.Store.DeleteAll` | internal/store/store.go:164-176 | the deletions of the transaction empty the bucket if and only if none of them fails |
| `PeerStore.Store.PutAll` | internal/store/store.go:177-187 | the writes of the transaction leave exactly the encoded map if and only if none of them fails and no key is empty |
| `PeerStore.Store.ReplaceAll` | internal/store/store.go:159-196 | the bucket's peers become exactly the given map, or stay as they were, whichever deletion or write fails, or the commit after them |
| `PeerStore.Store.IsASNTracked` | internal/store/store.go:198-216 | true if and only if some stored peer has the AS number |
| `BirdConfig.ScanSound` | internal/bird/bird.go:31-33 | whatever text is scanned, a reported address is link-local in the scanner's form and a reported interface has no white space |
| `BirdConfig.RenderedText` | internal/bird/bird.go:22-25 | the rendered template is the text of the template with the AS number twice, the address and the interface in their places |
| `BirdConfig.RoundTrip` | internal/bird/bird.go:22-33 | scanning the rendered template returns the AS number, address, interface and protocol name if and only if the address is `fe80:` and more hexadecimal or colons and the interface is a non-empty word |
| `Scanning.WgRoundTrip` | internal/wg/wg.go:248-260 | the comment of a written WireGuard file gives its AS number back |
| `Scanning.DefaultNameMisreads` | internal/wg/wg.go:236-246 | a default interface name reads as 42 times ten to the number of digits, plus the AS number, or as no number if that is no int64; never as the AS number |
| `Scanning.ReadDumpLines` | internal/wg/wg.go:306-322 | the port is the third field of the last line with four fields, read as Atoi reads it, the key and endpoint the first and third of the last line with eight or more, and nothing where there is no such line |
| `Scanning.WgRowIff` | internal/wg/wg.go:262-342 | an entry named for an interface has a row exactly if it is no directory, its name or else its text gives an AS number and the dump shows a peer's key; the row has that interface, that number and what the dump shows last |
| `Scanning.OtherNamesSkipped` | internal/wg/wg.go:273-275 | directories and names without the suffix have no row, of WireGuard or of BIRD |
| `Scanning.AtoiPrint` | internal/wg/wg.go:318-318 | a printed port reads back, and as the nearest int if it is none |
| `Scanning.AtoiOther` | internal/wg/wg.go:318-318 | what begins with neither a digit nor a sign reads as port zero |
| `Scanning.ScanWg` | internal/wg/wg.go:262-342 | one row for each usable directory entry, in order |
| `Scanning.ScanBird` | internal/bird/bird.go:392-446 | one row for each readable file, in order |
| `Import.BuildIndex` | internal/handler/handler.go:489-494 | both indexes, later rows replacing earlier ones |
| `Import.IndexHasLast` | internal/handler/handler.go:489-494 | both indexes hold the last row of an interface and of an AS number |
| `Import.ImportPeers` | internal/handler/handler.go:489-551 | the loops report exactly the joined and then the unmatched rows that are not tracked |
| `Import.NothingTracked` | internal/handler/handler.go:496-551 | no reported entry has a tracked AS number |
| `Import.WgRowReported` | internal/handler/handler.go:496-528 | a WireGuard row is reported exactly if its AS number, the joined row's or else its own, is not tracked: as managed, on its interface, with its key, endpoint and port, and without an address if it is joined to none |
| `Import.CarriedIff` | internal/handler/handler.go:496-551 | an untracked BIRD row is reported if and only if a WireGuard row is joined to it or none is joined to a row on its interface |
| `Import.JoinComplete` | internal/handler/handler.go:496-551 | with rows on distinct interfaces every untracked BIRD row is reported, and reported as not WireGuard-managed exactly once if no WireGuard row is joined to it and never otherwise |
| `ImportRoundTrip.WriteThenImport` | internal/handler/handler.go:475-562 | peers with interfaces and AS numbers of their own, installed on an empty node and not tracked, come back from the import exactly once each, with true AS number, address, interface, protocol and file name, for any order of both directory listings |
| `ImportRoundTrip.GivesBackIff` | internal/bird/bird.go:62-93 | a BIRD file is named for the AS alone, so of several peers of one AS the last one's settings stay: among peers with interfaces of their own the import gives every one back if and only if each is the last of its AS, or has the last one's address and an interface whose name does not hide the AS number |
| `ImportRoundTrip.OwnAddresses` | internal/bird/bird.go:62-93 | where the peers of one AS have addresses of their own, that condition is that no two are of one AS |
| `ImportRoundTrip.DefaultNameHides` | internal/wg/wg.go:236-246 | an earlier peer of an AS on its default interface is lost even if it shares the last one's address, where the number in that name is an int64 |
| `BirdDetails.GetPeerDetails` | internal/bird/bird.go:330-380 | one entry for each BGP header before the first over-long line, in order, with the routes of exactly the lines whose nearest preceding header it is, modulo two to the 64 |
| `BirdDetails.RoutesConserved` | internal/bird/bird.go:358-377 | the entries' totals sum to the routes of all lines after the first header modulo two to the 64, and exactly if no session's own total overflows |
| `BirdDetails.RoutesRead` | internal/bird/bird.go:29-29 | a printed line of routes, indented or not, with or without a preferred count, reads as the counts printed on it |
| `BirdDetails.HeaderRead` | internal/bird/bird.go:337-356 | a line of six or more words whose second is BGP begins a session named by the first, in the state of the sixth in lower case, with the uptime of the fifth |
| `BirdDetails.IndentedIsNoHeader` | internal/bird/bird.go:337-337 | an indented line begins none |
| `BirdDetails.SscanPrint` | internal/bird/bird.go:363-367 | reading a printed count gives the count, or zero if it is no int64 |
| `BirdDetails.SscanOctal` | internal/bird/bird.go:363-367 | after a leading zero a count reads in base eight, up to the first eight or nine |
| `WsClient.Client.FixFrame` | internal/ws/client.go:325-342 | while the guarded fields are coherent a frame is fixed exactly when there is a connection, for that connection's channel, and sealed with that connection's key exactly when encryption is on |
| `WsClient.Client.Turn` | internal/ws/client.go:117-172 | one turn of Run that nothing disturbs queues the sync request for its connection, sealed with that connection's key exactly if the agent has a key pair, and ends with no connection and nothing left to close |
| `ProtocolTheorems.AlwaysCoherent` | internal/ws/client.go:93-208 | in every run they are coherent: a connection has its own send and done channel, and encryption, when on, uses its own key |
| `ProtocolInvariant.ThreadsRun` | internal/ws/client.go:117-219 | every step of Run keeps: at most one read loop lives, on the latest connection, and its done channel is open until it closes it |
| `ProtocolInvariant.ThreadsRead` | internal/ws/client.go:249-280 | so does every step of a read loop |
| `ProtocolInvariant.CryptoRun` | internal/ws/client.go:93-172 | every step of Run keeps: encryption is on only with the latest connection's key and after it was enabled there |
| `ProtocolInvariant.FramesRun` | internal/ws/client.go:317-354 | every step of Run keeps every frame, queued or on its way, its connection's own |
| `ProtocolInvariant.FixedIsOwn` | internal/ws/client.go:325-342 | a frame is fixed for the connection whose key seals it |
| `ProtocolInvariant.RequestsRun` | internal/handler/handler.go:711-751 | every step of Run keeps: a connection asks for keys at most once, after publishing its channel |
| `ProtocolInvariant.AcksRead` | internal/handler/handler.go:796-818 | every step of a read loop keeps: an acknowledgement answers a request and is in one place only, on the wire, in the read loop's hand, or in its connection's channel |
| `ProtocolInvariant.EveryRun` | internal/ws/client.go:117-365 | every step of every goroutine keeps the invariant, so every run does |
| `ProtocolTheorems.QueuedFramesAreOwn` | internal/ws/client.go:317-354 | in every run a queued frame is sealed with its own connection's key if it was fixed after encryption was enabled there, and in the clear otherwise |
| `ProtocolTheorems.EncryptionStaysOn` | internal/ws/client.go:93-105 | once enabled on a connection, encryption is on with that connection's key whenever that connection is the client's |
| `ProtocolTheorems.SyncSealedIffKeyed` | internal/ws/client.go:153-169 | a queued `peers.sync` request is sealed with its connection's key if and only if the agent has a key pair |
| `ProtocolTheorems.DeliveryNeverBlocks` | internal/handler/handler.go:796-818 | with a center that acknowledges each request at most once and after it was queued, the send to the handshake's channel never blocks the read loop |
| `ProtocolTheorems.HandshakeTakesItsOwn` | internal/handler/handler.go:745-750 | the acknowledgement a handshake takes answers the one request queued on its own connection |
| `ProtocolTheorems.ClosedAtMostOnce` | internal/ws/client.go:201-280 | in every run each done channel is closed at most once and connect never finds one to close |
| `ProtocolTheorems.ClearBehindSealed` | internal/ws/client.go:344-353 | a run in which a frame in the clear is queued behind a sealed one on the same connection |
| `Crypto.HexRoundTrip` | internal/crypto/crypto.go:51-57 | hexadecimal text of any bytes reads back as the bytes |
| `Crypto.PublicKeyRoundTrip` | internal/crypto/crypto.go:35-53 | a printed public key reads back as the key |
| `Crypto.PublicKeyFromHex` | internal/crypto/crypto.go:35-41 | only 64 hexadecimal digits give a key, and it has 32 bytes |
| `Crypto.DerivesByHkdf` | internal/crypto/crypto.go:63-70 | the session key is the 32 bytes of HKDF (sections 2.2 and 2.3 of RFC 5869) for the shared secret, with the nonce as salt and the documented label |
| `Crypto.NoncesMatter` | internal/crypto/crypto.go:63-70 | two nonces give two keys, unless the hash collides |
| `Crypto.SealAppend` | internal/crypto/crypto.go:83-83 | appending to a slice of the buffer writes in place if and only if there is room, and otherwise leaves the buffer alone |
| `Crypto.Encrypt` | internal/crypto/crypto.go:76-85 | the buffer ends as nonce and sealed text exactly: the seal fills it in place |
| `Crypto.DecryptIff` | internal/crypto/crypto.go:87-99 | a text comes back from exactly the frames made of it under the key |
| `Crypto.DecryptInvertsEncrypt` | internal/crypto/crypto.go:76-99 | decrypting an encrypted text gives the text |
| `KeyExchange.InitTaken` | internal/handler/handler.go:820-858 | the agent takes an acknowledgement exactly if it reports no error and has a key the two can share a secret with, and caches the text of that key |
| `KeyExchange.InitAgrees` | internal/handler/handler.go:820-858 | both ends of `key.init` derive one key, HKDF of the secret they share and the center's nonce, and the agent caches the center's key, or the secret is refused at both ends |
| `KeyExchange.AuthTaken` | internal/handler/handler.go:860-894 | the agent takes the answer to `key.auth` exactly if it has a key the two can share a secret with |
| `KeyExchange.ProofIsForItsNonce` | internal/crypto/crypto.go:101-106 | the documented center refuses the agent's request under another nonce than the one the proof was made for, unless the hash collides |
| `KeyExchange.AuthAgrees` | internal/handler/handler.go:753-794 | the agent sends its node id, its own key, its nonce and the HMAC of label and nonce under the secret it shares with the cached key; the documented center accepts that, and both ends derive one key, HKDF of the secret shared with the ephemeral key and of the agent's nonce followed by the center's |
| `KeyExchange.PairThenReconnect` | internal/handler/handler.go:820-894 | the key cached by the first exchange carries the second, and after each a frame sealed at either end opens at the other |
| `UpdaterProcess.Updater.CopyFileAtomic` | internal/handler/update_helpers.go:200-241 | in every scenario the files end as `Updates.Copy` says for some progress, and a copy that meets no failure succeeds |
| `UpdaterProcess.Updater.ReplaceFile` | internal/handler/update_helpers.go:243-258 | as above for rename, or copy and remove where the rename is refused |
| `UpdaterProcess.Updater.DownloadFile` | internal/handler/update_helpers.go:108-182 | as above; it succeeds only with a complete, accepted download |
| `UpdaterProcess.Updater.DownloadAndApply` | internal/handler/update_helpers.go:38-70 | as above for download, backup and replacement in this order |
| `UpdaterProcess.Updater.HandleAgentUpdate` | internal/handler/handler.go:614-685 | files and store end as `Updates.Update` says; without failures an accepted update ends with its id recorded and, unless the binary was there already and nothing else changes, its version recorded, its download as the executable and the old binary as the backup of the old version |
| `UpdaterProcess.Updater.HandleAgentRollback` | internal/handler/handler.go:692-709 | files end as `Updates.Rollback` says; a rollback that restarts has moved the backup of the stored version to the executable, and without failures one that has a backup does |
| `UpdateSafety.CopyLeaves` | internal/handler/update_helpers.go:200-241 | however far it got, the target is untouched or holds all of the source, and nothing else but a temporary file differs, which is gone once moved or removed |
| `UpdateSafety.ReplaceLeaves` | internal/handler/update_helpers.go:243-258 | the same, the source is gone only once the target holds it, and a finished one leaves neither source nor temporary file |
| `UpdateSafety.ApplySafe` | internal/handler/update_helpers.go:38-70 | wherever it stops, the executable is the old binary whole, or the new one whole and verified with the old one as the backup of the current version |
| `UpdateSafety.ApplyCleansUp` | internal/handler/update_helpers.go:38-70 | a finished one leaves no download and no temporary file |
| `UpdateSafety.OtherBackupsStay` | internal/handler/update_helpers.go:56-60 | no other version's backup is touched |
| `UpdateSafety.UpdateSafe` | internal/handler/handler.go:614-685 | the same for the handler |
| `UpdateSafety.AppliedTakesHold` | internal/handler/handler.go:654-673 | an update that ran to its end has the verified download as the executable, the old binary as the backup of the old version, and, where the store takes the writes, the version and the id it was sent with |
| `UpdateSafety.UnappliedLeaves` | internal/handler/handler.go:641-651 | one that asks for the running binary, or meets a node without a version, changes no file and no version; only the first records its id |
| `UpdateSafety.EveryRunIsTrusted` | internal/handler/handler.go:614-709 | over every run of updates, rollbacks and starts, each stopped anywhere, the executable is present and it, the finished download and every backup are the original or hash as some update asked |
| `UpdateSafety.RollbackRestoresIff` | internal/handler/handler.go:692-709 | a finished rollback after a finished update restores the old binary if and only if the version stored by then is the one before the update, or its backup was the old binary anyway |
| `UpdateSafety.FirstUpgradeCannotRollBack` | cmd/agent/main.go:69-69 | after a node's first upgrade to a binary of another version and its restart, a rollback changes nothing |
| `UpdateSafety.RedeliveryIsQuiet` | internal/handler/handler.go:626-645 | an update delivered again after it took hold changes neither files nor version |
| `UpdateSafety.RedeliveryById` | internal/handler/handler.go:626-629 | once its id is recorded an update is not carried out again, over any starts and rollbacks in between, whatever binary they left |
| `Downloads.CopyLimited` | internal/handler/update_helpers.go:150-156 | for every body, every chunking and every read or write that fails, the one that would meet the end included, with a reader that gives the end by itself or with the last bytes: the copy succeeds if and only if the reads suffice and the file has room, and then file and hash both saw all that the limited reader lets through |
| `Downloads.Fetch` | internal/handler/update_helpers.go:150-167 | a download is accepted if and only if the reads suffice, the file has room and the checks pass, and then the file is what the limited reader lets through |
| `Downloads.AcceptedIsWhole` | internal/handler/update_helpers.go:153-167 | with the size check available, a download is accepted exactly if it is over HTTPS, at most 50 MiB and has the requested hash, and what is accepted is the whole body |
| `Downloads.UnexaminedIsWholeIff` | internal/handler/update_helpers.go:158-161 | without it, what is accepted is the whole body if and only if the body is at most one byte over the limit |

## Left out

- Metrics, ping, traceroute, status and route lookups, BIRD enable and disable, configuration loading: they would only add easy members.
- Real cryptography: X25519, HMAC and XChaCha20-Poly1305 are functions with their algebraic laws; nothing is claimed about secrecy.
- Bolt, WebSocket, JSON and template internals: a transactional map, a message source that can fail, values, and string concatenation; numbers in JSON are integers, and undecodable payloads are not modelled.
- Time: deadlines, keepalive, backoff and uptime parsing; timeouts are steps that may happen at any moment.
- The order of frames on the wire and the write loop: claims are about what is queued, since the loop reads the send channel without the lock.
- Durability below the file system: contents survive a crash as written and renames are atomic; fsync is an operation that can fail.
- Reads of the node's own state (stat, `wg show` for an interface, store reads) are exact in the handlers; a failing `wg-quick up` leaves the set of interfaces that are up unchanged, and where commands succeed it also does on an interface that is already up, which the real command refuses; worlds in which it fails there are covered by every result about all worlds.
- File paths: interface names, BIRD file names and versions are names, not paths; what a separator inside one would do is not modelled.
- The WireGuard template after its first line is a parameter: only its first line is read back.
- Host.ReplaceAll: takes the transaction as one command; its loops are `PeerStore.Store.ReplaceAll`.
- Runs.RunInvariant: asks for succeeding commands and an injective naming plan, which the source does not check; `Runs.RunInvariantIff` says which injective plans will do, and `SyncTheorems` and `PeerAdd` what happens when commands fail.
- Two peers of one payload on one interface: most results about a sync ask for distinct interfaces, which the source does not check; those about the report, the teardown and a crash after the commit do not.
- BirdDetails.GetPeerDetails: takes the output as lines, without the carriage return that the scanner drops at their end.
