# A verified model of the NVMe/TCP discovery client

The discovery client keeps a host connected to the discovery services of its storage clusters. It reads
configuration files into a cache of entries, keeps one connection per entry, mirrors the connections into a
service, reads discovery log pages over NVMe/TCP, and follows the referrals it finds there. The repository
also holds the target side of the protocol. This project models the parts of both sides that carry state or
arithmetic and proves what they keep.

Imperative code is modelled by classes and methods with loops. Each of them is proved equal to a function of
its inputs or of the state before the call. What the program promises is then proved about those functions,
for every input, every run and every order of events. Beside each function that only computes stands a law that does not
name it: on bytes, characters, fields and times.

## How it is laid out

| files | subject |
|---|---|
| `scatter_list.dfy` | chunked buffers as flat ones |
| `log_page_wire.dfy`, `discovery_log.dfy`, `discovery_target.dfy`, `log_page_fetch.dfy`, `discovery_host.dfy` | the discovery log page from the target's handler, over the byte stream and the host's queue, to the host's paging loop |
| `cache_entries.dfy`, `cache_referrals.dfy`, `connections.dfy`, `client_cache.dfy` | the cache: entries, referrals, the shared tables of connections |
| `conn_maps.dfy`, `client_service.dfy`, `client_system.dfy`, `client_changes.dfy` | the service that mirrors the cache, both together as a state machine, and what each step changes |
| `client.dfy`, `client_witness.dfy` | the whole client as objects, every event of which is a step of that machine, and runs that show what goes wrong |
| `controller.dfy`, `target_queue.dfy`, `target_runs.dfy` | the target's controller and queue |
| `host_queue.dfy`, `host_runs.dfy`, `framing.dfy`, `exchange.dfy` | the host's queue and the PDUs on the stream |
| `layout.dfy`, `target_commands.dfy`, `handler_bytes.dfy` | every field on the wire, every command at the target and every byte of the log page, said about bytes |
| `session.dfy` | a whole discovery session, from the bytes of the host's commands to the records in its queue |
| `discover_course.dfy`, `conn_table.dfy`, `decimals.dfy` | a discover against the clock, and the table of persistent clients |
| `text.dfy`, `config_text.dfy`, `config_lines.dfy` | printing and parsing the configuration, and what a line means |
| `bytes.dfy`, `wrappers.dfy` | fixed-width integers and fields, and optional values |

## Where the code does not do what one would expect

Where the behaviour has a condition, the condition is exact and proved in both directions.

- A Get Log Page at offset 1024 sends the header a second time (`DiscoveryTarget.WindowExact`,
  `DiscoveryTarget.HeaderAgain`). The host never asks for that offset, because it takes the first unit of every
  page for a header and counts the next offset in records only: the two slips cancel (`DiscoveryHost.ReadPaged`).
- The one-request read fails as soon as the log has more than 2^22 - 2 records, and paging does not
  (`DiscoveryHost.GetLogPageEntries`, `DiscoveryHost.ReadBothWays`).
- The length field of a data PDU wraps for data of 2^32 - 24 bytes and more (`Framing.ReplyFramed`). The host then
  fails on a negative length, or its receive loop ends and the request is never answered (`Exchange.ResponseEnds`).
- A shutdown request that also disables a running controller is never answered with shutdown-complete
  (`Controllers.ShutdownAnswered`).
- A read command whose descriptor points to inline data is completed, and then the queue stays open and reads
  nothing more, not even that the host hung up; only a keep-alive timeout ends it (`TargetRuns.LoopEnds`,
  `TargetRuns.StalledForGood`). An Identify does this to any ready controller (`TargetRuns.InlineIdentifyStalls`).
- A response with an error status for an unknown id ends the host's receive loop (`HostRuns.UnknownIds`,
  `HostRuns.EndedIff`), and then no request is ever delivered again (`HostRuns.EndedForGood`). A
  request is overwritten when its id comes round again, and before that id 0, which is meant for keep-alive only,
  goes to another request (`HostRuns.OverwrittenIff`, `HostRuns.WrapOverwrites`).
- A discover that gets stuck at a step that fails by itself before the ten-second timer leaves its client running for
  good, and no other discover does (`ConnTables.LeaksIff`). A target that falls silent at a read of the log page does not
  have this effect. One that falls silent at an earlier command does, unless the command was sent in the last five seconds
  before the timer fires (`DiscoverCourses.SilenceAt`).
- Entries compare by a persistence flag that the key lacks. Keys stay unique exactly when no key comes with two
  flags (`Entries.UniqueIffFlagsAgree`), which holds because every path of the running program sets the flag.
- A stored list with a referral that has no address, port or names is refused at start (`Entries.RestartAccepted`), and
  a referral without address gets into the list of the running program (`ClientWitness.RefusedRestart`).
- The service clears the active connection on a copy. So a cluster is connected anew exactly if none of its connections
  was made active since the start (`ClientSystem.ReconnectsIff`), also when the active one is stopped, which happens
  exactly in three ways (`ClientSystem.ActiveIsStopped`, `ClientWitness.StuckRun`, `ClientWitness.LateReferrals`).
- The configuration parser indexes past the end of a line that ends in a flag, so an entry printed without host
  id cannot be read back (`ConfigText.LineParses`, `ConfigText.PrintThenParse`).

## Model

| member | source | states |
|---|---|---|
| `ScatterLists.ScatterList.constructor` | pkg/nvme/sgl.go:28-40 | A new list is a flat buffer of zeros of the asked length, in non-empty chunks that are all full size but the last; the loop ends for every positive chunk size. |
| `ScatterLists.ScatterListWriter.Write` | pkg/nvme/sgl.go:145-174 | For any chunking and position, as many bytes as there is room for replace the flat buffer at the flat position and nothing else changes; short exactly when the data does not fit. |
| `ScatterLists.ScatterListWriter.Len` | pkg/nvme/sgl.go:60-66 | The room left is the capacity minus the flat position, although it is summed up over chunks. |
| `ScatterLists.ScatterListReader.Read` | pkg/nvme/sgl.go:112-142 | The caller's buffer is filled with the flat buffer from the flat position on and left alone past that; end of data exactly when fewer bytes are left than asked for. |
| `ScatterLists.Drain` | pkg/nvme/tcp_queue.go:224-228 | Copying a list out in blocks of any size gives everything from the cursor on, whatever the chunks, and ends. |
| `Chunks.ConcatOverwrite` | pkg/nvme/sgl.go:149-168 | Writing inside one chunk is writing at the corresponding place of the concatenation. |
| `LogPageWire.RequestRoundTrip` | pkg/nvme/discovery.go:97-160 | For every 32-bit size and 64-bit offset, the target reads back the offset and the size rounded down to dwords, sizes below four included. |
| `LogPageWire.CommandRoundTrip` | pkg/nvme/discovery.go:123-160 | The other way: a command is determined by the length and offset read from it exactly when its dword count is below 2^30 - 1 or all ones. |
| `LogPageWire.BytesToNumd` | pkg/nvme/discovery.go:123-133 | The 0's based dword count, one more of which is the whole number of dwords, in 32-bit arithmetic. |
| `Layouts.PageRequestFields` | pkg/nvme/discovery.go:97-142 | The two halves of the count hold one less than the number of whole dwords, all ones for none; the two halves of the offset are the offset. |
| `DiscoveryLog.HeaderRoundTrip` | pkg/nvme/discovery.go:215-220 | Generation and number of records survive the header. |
| `DiscoveryLog.UnitsOfRecords` | pkg/nvme/nvmehost/tcp_queue.go:307-320 | Records written one after the other are cut back into the same records, whatever follows them. |
| `DiscoveryTarget.Execute` | pkg/nvme/discovery.go:603-658 | For every command, length and offset, what goes out through the chunked list is what the handler's specification says: data, an internal error, or a write to a missing list. |
| `DiscoveryTarget.WriteRecords` | pkg/nvme/discovery.go:643-652 | All records go into the list behind what is there, or the write fails, exactly when they do not fit. |
| `DiscoveryTarget.RecordsWindow` | pkg/nvme/discovery.go:603-658 | At every unit boundary past the first record the reply is the window of header and records at that offset, byte for byte and zero padded, and never an error. |
| `DiscoveryTarget.StartWindow` | pkg/nvme/discovery.go:603-658 | The same for offset 0, where the header comes first. |
| `DiscoveryTarget.HeaderAgain` | pkg/nvme/discovery.go:625-639 | At offset 1024 the header is sent again, and the reply is an error as soon as the records fill the request. |
| `DiscoveryTarget.WindowExact` | pkg/nvme/discovery.go:603-658 | On unit boundaries the handler serves the window of the log if and only if the offset is not 1024 or the log is empty with generation 0. |
| `HandlerBytes.HandlerExact` | pkg/nvme/discovery.go:603-658 | For every length and every 64-bit offset, aligned or not: exactly when the handler fails on a missing list, exactly when a record does not fit, and every byte of every other reply. |
| `Layouts.LogHeaderLayout` | pkg/nvme/discovery.go:215-220 | The header has the generation in bytes 0 to 7, the number of records in bytes 8 to 15, and zeros. |
| `LogPageFetch.RecvRecords` | pkg/nvme/nvmehost/tcp_queue.go:307-320 | The record loop takes the leading whole units of the data, as many as there are records left to fetch. |
| `LogPageFetch.SendDiscLogPageRequest` | pkg/nvme/nvmehost/tcp_queue.go:531-565 | One round trip, from the wire fields through the handler, the bytes of its response, the host's receive loop and queue to the record loop, is the composed specification for every size and offset: replies too short for a header, without data, or with a length that wraps included. No answer exactly when the writer is broken, the receive loop has ended, the target failed or the reply could not be read. |
| `HandlerBytes.FetchExact` | pkg/nvme/nvmehost/tcp_queue.go:531-565 | For every size and offset, exactly when one fetch gets no answer, takes the host down, or cannot read a header; and otherwise the generation, the count and every byte of every record, out of the bytes of the reply. |
| `LogPageFetch.TakeReply` | pkg/nvme/nvmehost/tcp_queue.go:585-641 | What the target wrote takes the queue through the PDUs that can be read, and the request it completed, if any, is the one handed on; a PDU that cannot be read ends the loop, a negative length fails. |
| `LogPageFetch.ReplyTaken` | pkg/nvme/tcp_queue.go:188-266 | A request that was just sent is completed with exactly the target's data if the data length does not wrap, and gets nothing otherwise, whatever else is outstanding. |
| `DiscoveryHost.FetchAligned` | pkg/nvme/nvmehost/tcp_queue.go:531-565 | At every unit boundary but 1024 the host gets the units after the first one of the window, as many as are left to fetch, and at offset 0 generation and number of records. |
| `DiscoveryHost.ReadPaged` | pkg/nvme/nvmehost/tcp_queue.go:479-489 | Against a log that may change at every request, the loop makes ceil(n/3) requests and record i comes from request i/3, none missing or repeated. |
| `DiscoveryHost.ReadOnce` | pkg/nvme/nvmehost/tcp_queue.go:490-501 | One request for everything gets all n records if n is at most 2^22 - 2; beyond that it gets fewer or brings the target down. |
| `DiscoveryHost.GetLogPageEntries` | pkg/nvme/nvmehost/tcp_queue.go:472-517 | Snapshot: for every history of changes that raise the generation, a successful read over the byte stream is the record list of one version that stood for the whole read; success, and the number of requests, are characterised exactly for both ways of reading; over a queue that is down every read fails. |
| `DiscoveryHost.ReadBothWays` | pkg/nvme/nvmehost/tcp_queue.go:472-517 | On a log that stands still paging always succeeds, and agrees with the one-request read exactly up to 2^22 - 2 records. |
| `Entries.ExistsIffKey` | pkg/clientconfig/conf_parser.go:58-71 | In a list of persistent entries, existing by comparison is having the key. |
| `Entries.InsertSound` | pkg/clientconfig/cache.go:499-538 | Adding an entry keeps keys unique, host ids and timeouts as they have to be, and adds exactly its key. |
| `Entries.InsertAllSound` | pkg/clientconfig/cache.go:462-474 | The same for a whole list of entries, whose keys are added exactly. |
| `Entries.AddedFields` | pkg/clientconfig/cache.go:504-515 | What is added is the entry, field by field, but for the timeout of a referral, which is the users', and the effective host id, which is that of the connected host if it differs. |
| `Entries.UserTMOIs` | pkg/clientconfig/cache.go:504-511 | The users' timeout is that of the first user entry that has one, and there is none exactly if there is no such entry. |
| `Entries.UniqueIffFlagsAgree` | pkg/clientconfig/cache.go:484-538 | Over any list added to any list with unique keys, keys stay unique if and only if no key comes with both persistence flags. |
| `Entries.RestartExact` | pkg/clientconfig/cache.go:303-327 | Starting from the stored list rebuilds the same entries in the same order with host ids of the present hosts; with the same hosts, the same list; and it would be stored the same again. |
| `Entries.RestartAccepted` | pkg/clientconfig/cache.go:317-322 | The stored list passes verification at start if and only if every referral in it has an address, a port and both names. |
| `Referrals.ReconcileShape` | pkg/clientconfig/cache.go:540-631 | Handling the referrals of one pair keeps the surviving entries in order, puts the new ones behind them and keeps the list sound, whatever the orders of the two loops. |
| `Referrals.ReconcileKeys` | pkg/clientconfig/cache.go:540-631 | Afterwards the pair has exactly the referral keys, every other pair the keys it had, and entries that stay are untouched. |
| `Referrals.ReconcileOthers` | pkg/clientconfig/cache.go:592-631 | The entries of other pairs are the same list in the same order. |
| `Referrals.ReportedIffChanged` | pkg/clientconfig/cache.go:540-568 | The pair is reported if and only if its keys changed, and no other pair is. |
| `Referrals.ReconcileIdempotent` | pkg/clientconfig/cache.go:540-631 | The same referrals again, in any order, change and report nothing. |
| `Referrals.SurvivesOwnDiscovery` | service/service.go:160-168 | A connection outlives the referrals of its own discovery if and only if it uses TCP and is on port 8009 or listed in the log page. |
| `Referrals.ReferralFields` | pkg/clientconfig/cache.go:633-644 | The entry made from a referral, field by field. |
| `Connections.ConnectionMap.Add` | pkg/clientconfig/cache.go:148-160 | Filing a connection sets its key only, makes the pair's table at most once, and never replaces a table that a notification may hold. |
| `Connections.ConnectionMap.Delete` | pkg/clientconfig/cache.go:162-164 | Deleting removes the key only, in the shared table itself; a missing key or pair is no error. |
| `ClientCache.ExistEntry` | pkg/clientconfig/cache.go:484-497 | Found exactly when some entry of the list compares equal. |
| `ClientCache.FindUserTMO` | pkg/clientconfig/cache.go:504-511 | The timeout of the first user entry that has one. |
| `ClientCache.Cache.AddEntry` | pkg/clientconfig/cache.go:499-538 | In any state: nothing for an entry that exists, a new connection for a new key, made from the completed entry, and an error for a key that has a connection but no entry, when the entry is listed all the same. |
| `ClientCache.Cache.AddSound` | pkg/clientconfig/cache.go:499-538 | In a cache that agrees the error never occurs and list, connections and count go on agreeing. |
| `ClientCache.MadeCarries` | pkg/clientconfig/cache.go:526-529 | The connection made from an entry of a sound list has the five fields of the entry as its key, the entry's timeout, and as host id that of the connected host if it has another non-empty one and the entry's own if not. Agreement includes this for every entry, over files, referrals and restarts. |
| `ClientCache.Cache.FileAdded` | pkg/clientconfig/cache.go:452-482 | A user file adds its entries as persistent ones; the pairs returned are those of the appended entries; agreement stays and existing connections are the same objects. |
| `ClientCache.Cache.FileStored` | pkg/clientconfig/cache.go:397-402 | A file event does that and stores the list, and keeps tables and connections the same objects. |
| `ClientCache.Cache.DeleteEntry` | pkg/clientconfig/cache.go:646-675 | Removes the one entry with this pointer and the connection of its key, and counts it off; an unknown pointer changes nothing. |
| `ClientCache.CheckPairs` | pkg/clientconfig/cache.go:596-610 | Referrals are refused exactly when two neighbours differ in their pair and the first is not empty. |
| `ClientCache.Cache.RemoveNotInReferrals` | pkg/clientconfig/cache.go:592-631 | Exactly the entries of the referrals' pair that no referral compares equal to are removed, in place and in order, with their connections; agreement stays. |
| `ClientCache.Cache.HandleReferrals` | pkg/clientconfig/cache.go:540-568 | For any map of referrals and any two orders of going through it: the list is the reconciled one, the pairs reported are those changed, and the list is stored exactly when there are any; tables stay the same objects, so messages under way show the new contents, and connections that stay are the same objects. |
| `ClientCache.Cache.NotifyChange` | pkg/clientconfig/cache.go:420-439 | The message holds the cache's own tables of the named pairs, so it shows what they hold when it is read. |
| `ClientCache.Cache.SyncFromStored` | pkg/clientconfig/cache.go:303-327 | Starting from any stored list succeeds exactly when all of it verifies, and then adds it all; entries, connections, pairs and count go together even when two flags of one key clash. |
| `ClientCache.Cache.SyncExact` | pkg/clientconfig/cache.go:303-327 | From the list that a sound cache stored, a start that verifies regains the whole agreement of entries, connections and count, with the stored entries under the present hosts. |
| `ClientCache.Cache.SyncFromFiles` | pkg/clientconfig/cache.go:328-341 | A start from the user's files adds them one after the other, leaves the cache in agreement and stores its list; the pairs to notify are all of its pairs. |
| `ClientService.Service.RemoveConnections` | service/service.go:369-404 | Of the pairs in the message, exactly the connections it does not show are deleted and stopped, and the pairs that lost one are marked. |
| `ClientService.Service.AddConnections` | service/service.go:409-426 | What the message shows and the service lacks is added, and the pairs that got one are marked. |
| `ClientService.Service.HandleNotification` | service/service.go:239-260 | The named pairs end up with exactly the connections shown at this moment and others are untouched; every connection dropped is stopped, none twice; and exactly the changed pairs without active connection are to be connected anew. |
| `ClientService.Service.Stop` | service/service.go:429-443 | Every held connection is stopped once and none is left. |
| `ConnMaps.SyncedSame` | service/service.go:239-260 | A handled message makes its pairs equal to the cache and no other pair different. |
| `ClientSystem.InvStep` | service/service.go:205-312 | Every step (file, referrals, live connection, delivery in any order, stop, restart) keeps the joint invariant of cache, store, service, stops and messages under way. |
| `ClientSystem.RunInv` | service/service.go:205-312 | Every reachable state has the joint invariant. |
| `ClientChanges.KeysOverRuns` | pkg/clientconfig/cache.go:452-631 | After every step of every run, exactly which connections there are, by their five fields: a file adds those of its entries; referrals leave for their pair those over TCP to the addresses and ports of the log page and to the server itself on port 8009, and other pairs alone; a start has those of the store or of the files. |
| `ClientChanges.StoppedIffDropped` | service/service.go:369-443 | In every run a step stops exactly the connections that the service held before it and does not hold after it. |
| `ClientChanges.NotifiedOverRuns` | pkg/clientconfig/cache.go:396-439 | In every run a file notifies exactly the pairs that gained a connection, in one message, and the referrals of a discovery their own pair exactly if it gained or lost one. |
| `ClientSystem.CacheAgreement` | pkg/clientconfig/cache.go:484-538 | In every run, restarts included, no two entries share a key, connections and entries have the same keys, the counter is their number, and an entry exists exactly when its connection does, so the mismatch branch is never taken. |
| `ClientSystem.Convergence` | service/service.go:239-260 | In every run every pair is the same in service and cache or named by a notification under way; so whenever none is under way the service holds exactly the cache's connections. |
| `ClientSystem.DrainConverges` | service/service.go:239-260 | From every reachable state, delivering the messages under way in any order makes service and cache equal. |
| `ClientSystem.StoppedAtMostOnce` | pkg/clientconfig/cache.go:80-83 | In every run no connection is stopped twice, and a stopped one is neither in the cache nor in the running service. |
| `ClientSystem.Persistence` | pkg/clientconfig/cache.go:220-260 | In every run the stored list is the cached one after every step, and a restart from it has the same entries and keys. |
| `ClientSystem.ActiveIff` | service/service.go:139-145 | In every run a pair has an active connection if and only if some discovery made one active since the last start. |
| `ClientSystem.ActiveLast` | service/service.go:139-145 | And then it is the connection of the last discovery for the pair. |
| `ClientSystem.WatchedIff` | service/service.go:174-200 | In every run the service listens to a connection if and only if it found it live, while it held it, since the last start; and referrals only come over such connections. |
| `ClientSystem.ReconnectsIff` | service/service.go:251-258 | In every run a delivered notification connects a pair anew if and only if it names the pair, the pair's connections differ, and no connection of it was made active since the last start, whether or not that connection still exists. |
| `ClientSystem.ActiveIsStopped` | service/service.go:369-404 | In every run the active connection of a pair is a stopped one if and only if referrals made it active that came over a connection already stopped, or a later delivery found it gone from the cache, or the service was stopped. |
| `ClientWitness.StuckRun` | service/service.go:369-404 | For every verified user entry without loss timeout, other than tcp on port 8009, there is a run (file, delivery, discovery, referrals that drop it, delivery) after which the pair's active connection is stopped and its notification did not connect it anew, although another connection is there. |
| `ClientWitness.LateReferrals` | service/service.go:261-279 | After that run an event over the stopped connection that was still under way is a step, and makes the stopped connection the active one. |
| `ClientWitness.RefusedRestart` | pkg/clientconfig/cache.go:317-322 | For each of these entries there is a run (file, delivery, discovery, a referral without address over the connection) after which no start from the stored list comes up. |
| `Clients.Client.constructor` | service/service.go:88-109 | A new client, cache and service, is an initial state of the state machine. |
| `Clients.Client.FileEvent` | pkg/clientconfig/cache.go:397-402 | A file that appears takes the objects through a File step of the state machine and keeps them valid: the run theorems hold of the objects. |
| `Clients.Client.LiveEvent` | service/service.go:318-366 | A successful discovery over a connection that the service holds is a Live step. |
| `Clients.Client.AenEvent` | service/service.go:261-305 | A discovery after an event over a connection that is listened to is an Aen step: the connection becomes active, and its referrals and its own are reconciled in some two orders, stored and sent. |
| `Clients.Client.MessageShows` | pkg/clientconfig/cache.go:420-439 | However late a message is read, after any files and referrals since it was sent, its tables show exactly the cache's present connections of its pairs, all of them open. |
| `Clients.Client.DeliverEvent` | service/service.go:239-260 | Handling any of the messages under way is a Deliver step, and connects anew exactly the pairs that the state machine says. |
| `Clients.Client.StopEvent` | service/service.go:429-443 | Stopping the service is a Stop step. |
| `Clients.Client.StartEvent` | pkg/clientconfig/cache.go:303-350 | A new process comes up exactly if it does not have to use a stored list that fails verification, and then it is a Restart step. |
| `Controllers.Controller.UpdateControllerConfiguration` | pkg/nvme/controller.go:195-215 | A write takes the registers, through enabling and then shutdown, to the state whose safety and history the next rows state. |
| `Controllers.WriteSafe` | pkg/nvme/controller.go:145-215 | From every safe state and for every value: stored CC never has SHN, RDY implies EN, EN implies RDY or CFS, RDY and shutdown-complete never meet; and exactly when each of EN, RDY and shutdown-complete is set afterwards. |
| `Controllers.StatusOfHistory` | pkg/nvme/controller.go:195-215 | Over every history of writes and timeouts: safe, ready if and only if some write enabled the controller with valid sizes and none since undid it, shut down if and only if some write asked for it and none since set EN. |
| `Controllers.ShutdownAnswered` | pkg/nvme/controller.go:207-210 | In every run a shutdown request is answered by shutdown-complete if and only if it does not disable a running controller. |
| `Controllers.WriteExact` | pkg/nvme/controller.go:145-215 | Every write in every run, by bit masks: enabling, disabling and shutdown, and what they leave of CC and the status. |
| `Controllers.TimeoutFails` | pkg/nvme/controller.go:117-134 | In every run a timeout sets bit 1 of the status and nothing else. |
| `Controllers.Controller.KeepAliveExpired` | pkg/nvme/controller.go:117-134 | An expired timer sets CFS and signals exactly once. |
| `TargetQueues.TargetQueue.RequestInit` | pkg/nvme/nvme_queue.go:86-142 | A command is accepted as one kind or refused with one status, from the flags, the connection and readiness; a refused one is completed under its id, an accepted one not yet. What each opcode does is in the `TargetCommands` rows. |
| `TargetQueues.TargetQueue.ConnectRequest` | pkg/nvme/nvme_data_types.go:322-381 | Exactly an acceptable connect makes a controller, in its reset state, and every connect is completed once. |
| `TargetQueues.TargetQueue.PropertySetRequest` | pkg/nvme/fabrics.go:103-124 | Exactly a 4-byte write of CC reaches the registers, with the low 32 bits of the value. |
| `TargetQueues.TargetQueue.SetFeaturesRequest` | pkg/nvme/discovery.go:248-286 | The event switch follows bit 31 when no other bit is set, and is left alone otherwise. |
| `TargetQueues.TargetQueue.RegisterAsyncEventRequest` | pkg/nvme/controller.go:239-251 | The fifth waiting request is refused at once, an earlier one waits behind the others. |
| `TargetQueues.TargetQueue.Process` | pkg/nvme/tcp_queue.go:323-371 | From the bytes of a command to its completion, its waiting or its silence, and to what becomes of the reading loop, in the order of the source's checks. |
| `TargetQueues.TargetQueue.HandleReceivePdu` | pkg/nvme/tcp_queue.go:295-375 | The loop over any commands is their specification one after the other, and what arrives after its end changes nothing. |
| `TargetQueues.TargetQueue.HandleAenEvent` | pkg/nvme/controller.go:292-319 | A discovery change completes the longest waiting request, if events are on and one waits. |
| `TargetQueues.TargetQueue.WatchKeepAlive` | pkg/nvme/nvme_queue.go:190-204 | An expired timer closes the queue unless the controller had failed before. |
| `TargetRuns.RunInv` | pkg/nvme/tcp_queue.go:295-375 | Every run of commands, discovery changes, timeouts and hang-ups keeps the accounting of commands, completions and registers. |
| `TargetRuns.OneCompletion` | pkg/nvme/nvme_queue.go:219-226 | In every run each command is completed at most once and under its own id; while the queue lives it is completed if and only if it is not a waiting Async Event, and afterwards only the command that ended the queue may be missing too. |
| `TargetRuns.AsyncEvents` | pkg/nvme/controller.go:239-319 | In every run at most four wait, the signalled ones followed by the waiting ones are in order of arrival, and the registered ones are exactly the signalled, waiting and refused ones. |
| `TargetRuns.AcceptedIffEnabled` | pkg/nvme/discovery.go:388-398 | In every run a well-formed discovery command is accepted if and only if a controller was connected and, among the CC writes received since, one enabled it with valid sizes and none later disabled it or shut it down. |
| `TargetRuns.LoopEnds` | pkg/nvme/tcp_queue.go:326-372 | For every command: when a refusal leaves the queue open, when it stops reading without closing, when a command is never completed, and when the process fails. |
| `TargetRuns.StalledForGood` | pkg/nvme/tcp_queue.go:340-349 | Once a run has stalled a queue, in every continuation nothing more is read, only the Async Events that waited are completed, longest waiting first, hanging up changes nothing, and the queue is closed if and only if a keep-alive timeout comes and the controller had not failed. |
| `TargetRuns.InlineIdentifyStalls` | pkg/nvme/tcp_queue.go:340-349 | In every run with a ready controller, an Identify with an inline descriptor is completed with Invalid Field and stalls the queue. |
| `TargetRuns.SomeRunStalls` | pkg/nvme/tcp_queue.go:295-375 | Connect, enable and that Identify are such a run. |
| `TargetCommands.ConnectServed` | pkg/nvme/nvme_data_types.go:322-381 | In every run, by the bytes of the command and its data: a connect makes a controller in its reset state if and only if it names the discovery subsystem, has record format 0, asks for any controller and for a queue; and the status of every other one. |
| `TargetCommands.NotConnected` | pkg/nvme/nvme_queue.go:58-84 | Anything else on a queue without controller closes it, answered unless it is a connect without inline data. |
| `TargetCommands.KeepAliveServed` | pkg/nvme/nvme_data_types.go:560-564 | In every run with a ready controller, opcode 0x18 is completed with success under its id and leaves the controller as it was. |
| `TargetCommands.GetFeaturesServed` | pkg/nvme/discovery.go:296-324 | Opcode 0x0a leaves the controller as it was, and is a success exactly for features 0x0b and 0x0f. |
| `TargetCommands.SetFeaturesServed` | pkg/nvme/discovery.go:248-286 | Opcode 0x09 changes at most the event switch, to bit 31 of the value when no other bit is set, and fails for every other feature or value. |
| `TargetCommands.AsyncEventServed` | pkg/nvme/controller.go:239-251 | Opcode 0x0c waits behind the others, or is refused if four wait. |
| `TargetCommands.IdentifyServed` | pkg/nvme/discovery.go:326-361 | Opcode 0x06 is a success, or stalls the queue if it points to inline data. |
| `TargetCommands.LogPageServed` | pkg/nvme/discovery.go:388-444 | Opcode 0x02 is refused for another page than 0x70, stalls the queue with inline data and a length, and is otherwise what the handler says for the length and offset in its bytes. |
| `TargetCommands.PropertySetServed` | pkg/nvme/fabrics.go:103-124 | A 4-byte write of register 0x14 reaches the controller with the low 32 bits of its value; any other write is an error and changes nothing. |
| `TargetCommands.PropertyGetServed` | pkg/nvme/fabrics.go:165-243 | Register 0 is read with 8 bytes and registers 8, 0x14 and 0x1c with 4; any other Fabrics type closes the queue. |
| `TargetCommands.RefusedCommands` | pkg/nvme/nvme_queue.go:86-142 | Wrong flags, a controller that is not ready and an unknown opcode are refused with their status and close the queue. |
| `TargetCommands.TimeoutServed` | pkg/nvme/nvme_queue.go:190-204 | In every run a timeout closes a living queue whose controller has not failed, sets bit 1 of its status, completes nothing, and does nothing otherwise. |
| `TargetCommands.ChangeServed` | pkg/nvme/controller.go:292-319 | In every run a discovery change completes the longest waiting Async Event if the queue lives, events are on and one waits, and does nothing otherwise. |
| `TargetCommands.HangupServed` | pkg/nvme/tcp_queue.go:295-310 | A hang-up closes an open queue and does nothing to any other. |
| `HostQueues.StoreData` | pkg/nvme/nvmehost/tcp_queue.go:684-691 | The data of a request is as long as announced, cut or filled with zeros, and an error exactly when the PDU brought more. |
| `HostQueues.StoredBytes` | pkg/nvme/nvmehost/tcp_queue.go:684-691 | Byte by byte, that is the payload first and zeros behind it. |
| `HostQueues.HostQueue.SendKind` | pkg/nvme/nvmehost/tcp_queue.go:362-396 | A request takes the next id, or 0 for keep-alive, and the place of whatever had that id, before it is flushed out; once a flush has failed, requests take ids and nothing else. |
| `HostQueues.HostQueue.HandleRecv` | pkg/nvme/nvmehost/tcp_queue.go:585-696 | A response takes its request out of the table and hands it to the channel of its kind; data stays with the request; errors end the loop. |
| `HostQueues.HostQueue.RecvPdu` | pkg/nvme/nvmehost/tcp_queue.go:624-641 | The loop over any PDUs is their specification one after the other, until the first error. |
| `HostRuns.Matching` | pkg/nvme/nvmehost/tcp_queue.go:585-696 | In every run each sent request is in the table, delivered or overwritten, in exactly one of them and once; a delivered one carries the first response with its id since it was sent and the last data before that, on the channel of its kind. |
| `HostRuns.IdsStayApart` | pkg/nvme/nvmehost/tcp_queue.go:198-202 | With at most 65535 ids taken, id 0 is keep-alive's alone and nothing but a keep-alive is ever overwritten, so every other request that left the table was delivered exactly once. |
| `HostRuns.OverwrittenIff` | pkg/nvme/nvmehost/tcp_queue.go:377-396 | In every run, sending loses a request if and only if the writer is intact and the next id is still in the table. |
| `HostRuns.WrapOverwrites` | pkg/nvme/nvmehost/tcp_queue.go:198-202 | The bound is exact: in the run of one Async Event and then requests that are each answered before the next, the 65536th id is 0 and goes to a request that is no keep-alive, and the one after it overwrites the waiting Async Event. |
| `HostRuns.UnknownIds` | pkg/nvme/nvmehost/tcp_queue.go:655-682 | A PDU for an unknown id changes nothing, but ends the loop if and only if it is a response with an error. |
| `HostRuns.EndedIff` | pkg/nvme/nvmehost/tcp_queue.go:585-696 | In every run the receive loop has ended if and only if some PDU of it was a bad initialisation, an error for an id nobody waits for, or more data than announced for one somebody waits for. |
| `HostRuns.EndedForGood` | pkg/nvme/nvmehost/tcp_queue.go:624-641 | Once the loop has ended, in every continuation nothing is read or delivered, and every waiting request goes on waiting or is overwritten. |
| `Framing.SendDataPdu` | pkg/nvme/tcp_queue.go:188-231 | The header, the data fields and the whole scatter list go out, with the length computed in 32 bits; `Layouts.DataLayout` says what each byte is. |
| `Layouts.DataLayout` | pkg/nvme/tcp_queue.go:188-231 | Every byte of a data PDU: type 7, the flag of the last PDU, header length 24, data offset 24 or 0 for no data, the length modulo 2^32, id, offset 0, data length, and the data from byte 24 on. |
| `Layouts.RspLayout` | pkg/nvme/tcp_queue.go:171-186 | Every byte of a response PDU: type 5, lengths 24, and result, queue head, queue id, command id and status behind the header. |
| `Layouts.ResponseLayout` | pkg/nvme/tcp_queue.go:233-266 | The bytes of a whole response: the data PDU first, exactly for a success with data, and then the response PDU. |
| `Layouts.HandshakeLayout` | pkg/nvme/tcp_queue.go:117-169 | Every byte of the two initialisation PDUs. |
| `Layouts.CapsuleLayout` | pkg/nvme/nvmehost/tcp_queue.go:143-184 | Every byte of a command capsule: type 4, header length 72, the length with the data behind it. |
| `Layouts.HostReadExact` | pkg/nvme/nvmehost/tcp_queue.go:456-470 | The host's reading of any bytes at all: which types and header lengths it takes, when the length takes it down, when it waits, and where it finds each field. |
| `Layouts.TargetReadExact` | pkg/nvme/tcp_queue.go:99-115 | The target's reading of any bytes at all: which types and header lengths it takes, and exactly when it takes 1024 bytes more. |
| `Layouts.HandshakeExact` | pkg/nvme/tcp_queue.go:117-141 | What the target accepts as an initialisation, of any bytes at all. |
| `Framing.HandleRecv` | pkg/nvme/nvmehost/tcp_queue.go:585-601 | A PDU is read from the stream, or is cut short, malformed or of negative length, exactly as the specification that the framing results are about. |
| `Framing.RecvLoop` | pkg/nvme/nvmehost/tcp_queue.go:624-641 | The loop gets all PDUs of a stream up to the first that cannot be read, and says whether that one was cut short, malformed or of negative length. |
| `Framing.ReplyFramed` | pkg/nvme/tcp_queue.go:171-231 | Whatever follows, the host takes exactly the bytes of one reply and sees its id, status and data, if and only if the length did not wrap; otherwise the length is negative or the PDU malformed. |
| `Framing.RepliesFramed` | pkg/nvme/tcp_queue.go:171-266 | Any run of replies is split back into the same replies if and only if no length wraps. |
| `Framing.ReceiveCommand` | pkg/nvme/tcp_queue.go:311-364 | A command and the connect data expected behind it are read from the stream exactly as the specification that the framing results are about. |
| `Framing.InlineIsConnect` | pkg/nvme/tcp_queue.go:272-291 | Data is expected behind a command if and only if it is an accepted connect with an inline descriptor. |
| `Framing.CapsuleFramed` | pkg/nvme/tcp_queue.go:311-364 | The target takes exactly the bytes of one command if and only if the data that is there is the data it expects. |
| `Framing.CapsulesFramed` | pkg/nvme/tcp_queue.go:311-364 | Any run of commands is split back into the same commands if and only if that holds for each. |
| `Framing.HostStreamFramed` | pkg/nvme/nvmehost/tcp_queue.go:143-184 | The host's own stream, a connect with its data and then other commands, is always split back, whether or not the connect succeeds. |
| `Framing.HandshakeFramed` | pkg/nvme/tcp_queue.go:117-169 | Each side takes exactly the 128 bytes of the other's initialisation PDU and accepts it. |
| `Exchange.ResponseDelivered` | pkg/nvme/tcp_queue.go:233-266 | The bytes the target writes for a completed command hand the host's request with that id, and no other, to its channel, with the target's status and data. |
| `Exchange.ResponseEnds` | pkg/nvme/tcp_queue.go:188-266 | A response with fewer than 2^32 - 24 bytes of data is read to its end. With more, nothing of it is read: the host fails on a negative length below 2^32 - 16, and its loop ends from there on. |
| `Sessions.ConnectBack` | pkg/nvme/nvme_data_types.go:277-297 | The 64 bytes of the host's connect and the 1024 behind them are read by the target as a connect to the discovery subsystem that it accepts, whatever the host's id and name. |
| `Sessions.LogPageBack` | pkg/nvme/discovery.go:97-120 | The 64 bytes of a log page request give the target back its id and its page fields. |
| `Layouts.ConnectLayout` | pkg/nvme/nvme_data_types.go:277-297 | Every byte of the connect command. |
| `Layouts.ConnectDataLayout` | pkg/nvme/nvmf_data_types.go:32-39 | Every byte of the connect data: host id, controller id 0xffff, the subsystem's name, the host's name, and zeros. |
| `Layouts.PropertyGetLayout` | pkg/nvme/fabrics.go:135-152 | Every byte of a property read, with 8 bytes exactly for register 0. |
| `Layouts.PropertySetLayout` | pkg/nvme/fabrics.go:62-82 | Every byte of a property write. |
| `Layouts.IdentifyLayout` | pkg/nvme/discovery.go:169-186 | Every byte of the Identify command. |
| `Layouts.EventsOnLayout` | pkg/nvme/nvme_data_types.go:459-473 | Every byte of the command that switches events on. |
| `Layouts.LogPageLayout` | pkg/nvme/discovery.go:97-120 | Every byte of a log page request. |
| `Sessions.TargetHalf` | pkg/nvme/tcp_queue.go:295-375 | A command that is accepted is taken off the stream whole and completed once, with success and under its id. |
| `Sessions.HostHalf` | pkg/nvme/nvmehost/tcp_queue.go:377-396 | The bytes of its completion and data deliver the request that was just sent, with that data, and leave nothing outstanding. |
| `Sessions.OpeningServed` | pkg/nvme/nvmehost/tcp_client.go:186-204 | For every host and whatever the log does, each of the eight commands of the opening, sent as bytes, is accepted and completed, under ids that count up, and they leave a ready controller with events on. |
| `Sessions.SessionServed` | pkg/nvme/nvmehost/tcp_client.go:182-209 | For every host and every list of reads that the target can serve, against a log that may change at every command: every command of the session is accepted and completed in order, past the wrap of the ids too, and each read hands the host exactly the handler's data. |
| `Sessions.SessionFetch` | pkg/nvme/nvmehost/tcp_queue.go:531-565 | What the host reads out of that data is what one fetch straight from the handler gives, so the results about fetches hold of the reads of a session. |
| `Sessions.SessionRecords` | pkg/nvme/nvmehost/tcp_queue.go:472-517 | A session that pages through a log that stands still ends with its records: their number and the same generation before and after, and every record where the host looks for it. |
| `ConnTables.HostApi.FindClient` | pkg/nvme/nvmehost/nvmehost_impl.go:147-169 | Going through the table in any order finds the one client of the request, or says that there is none and proposes the next number. |
| `ConnTables.HostApi.DiscoverRequest` | pkg/nvme/nvmehost/nvmehost_impl.go:56-95 | A persistent discover replaces the client of an equal request under its id or gets a new id; a one-time client is stopped at once; a failed discover changes nothing in the table, and its client is stopped exactly if the timer ended it. |
| `ConnTables.HostApi.DisconnectId` | pkg/nvme/nvmehost/nvmehost_impl.go:129-141 | Removes and stops exactly the client with this id, and fails exactly when there is none. |
| `ConnTables.TableOverRuns` | pkg/nvme/nvmehost/nvmehost_impl.go:56-169 | In every run ids are decimals from 1 to below the counter, so the next one is free and "0" is never used, and a request has at most one client. |
| `ConnTables.DiscoverReplaces` | pkg/nvme/nvmehost/nvmehost_impl.go:72-91 | A persistent discover of a request that has a client puts the new client under the old one's id and stops the old one, and changes nothing else. |
| `ConnTables.DiscoverFiles` | pkg/nvme/nvmehost/nvmehost_impl.go:66-91 | A discover of a request that has none gets the next number if it is persistent, and is stopped at once if not. |
| `ConnTables.ClientsOverRuns` | pkg/nvme/nvmehost/tcp_client.go:117-235 | In every run a client is stopped at most once, and it was stopped if and only if it is not in the table and its discover connected or was ended by the ten-second timer; only connected ones are in the table. |
| `ConnTables.LeaksIff` | pkg/nvme/nvmehost/tcp_client.go:117-235 | Whatever happened before and whatever follows, a client that has a connection is neither in the table nor ever stopped if and only if, after prompt replies, an error comes or five seconds pass at a command, all within ten seconds. |
| `ConnTables.HostApi.RunClient` | pkg/nvme/nvmehost/tcp_client.go:117-235 | Every discover makes one client; how it ends follows from when each reply comes, and the client is stopped exactly if it is not done when the timer fires. `DiscoverCourses.OutcomeExact` says which, in replies and times. |
| `DiscoverCourses.OutcomeExact` | pkg/nvme/nvmehost/tcp_client.go:117-235 | For every course of replies, in replies and times: connected if and only if every reply is good and in time and all are in before ten seconds; failed with the client left running if and only if it leaks at some reply. |
| `DiscoverCourses.SilenceAt` | pkg/nvme/nvmehost/tcp_queue.go:519-543 | A target that falls silent at a read of the log page always has the client stopped by the timer; at a command it does so if and only if the command was sent five seconds or more after the connection was made. |
| `DiscoverCourses.ErrorAt` | pkg/nvme/nvmehost/tcp_client.go:182-205 | A reply that is an error leaves the client running if and only if it comes before the timer fires; to a command it counts after five seconds at the latest. |
| `DiscoverCourses.LateAt` | pkg/nvme/nvmehost/tcp_queue.go:519-529 | A good reply to a command that comes after five seconds is as if it never came. |
| `Decimals.PrintInjective` | pkg/nvme/nvmehost/nvmehost_impl.go:143-145 | Different numbers have different decimals. |
| `Text.FieldsOfJoin` | pkg/clientconfig/conf_parser.go:140 | Tokens joined by spaces are split into the same tokens. |
| `Text.LinesAppend` | pkg/clientconfig/conf_parser.go:130-133 | Text that ends in a line end is split into lines independently of what follows. |
| `ConfigText.EntriesToString` | pkg/commonstructs/common_structs.go:38-44 | The builder loop writes each entry's line and an empty line, in order. |
| `ConfigText.ReadFields` | pkg/clientconfig/conf_parser.go:143-210 | The index loop over the fields of a line is the recursive reading of flags and values: an entry, an error, or an index past the end. `ConfigLines.WordsMean` says what each spelling does. |
| `ConfigText.ReadLines` | pkg/clientconfig/conf_parser.go:130-222 | The entries of all lines in order, without comments, blank lines and entries that fail verification, or the first error. |
| `ConfigText.RemoveDupEntries` | pkg/clientconfig/conf_parser.go:225-238 | Equal entries are merged into one, except that entries with a timeout, which is a pointer, are all kept. |
| `ConfigText.Parse` | pkg/clientconfig/conf_parser.go:118-238 | A file gives the entries of its lines merged that way, in no particular order, or fails as its first bad line does. `ConfigLines.LineMeans` says what each line is. |
| `ConfigLines.WordsMean` | pkg/clientconfig/conf_parser.go:141-210 | For any words at all, over the sixteen spellings themselves: an entry exactly if every flag is known and has its value and no value is refused; every field has the value of the last spelling for it, persistent exactly with one of its two spellings; off the end exactly for a missing value. |
| `ConfigLines.LineMeans` | pkg/clientconfig/conf_parser.go:130-222 | The same for any line of characters, with or without comment: words are what stands between white space and equals signs; and it is kept exactly if the mandatory flags are there, the port is not 0 and a timeout is at least -1. |
| `ConfigLines.EveryLine` | pkg/clientconfig/conf_parser.go:127-140 | Every text without a hash is such a line. |
| `ConfigLines.FileMeans` | pkg/clientconfig/conf_parser.go:130-222 | A file is its entries in order exactly if every line is an entry or skipped, and otherwise fails as its first other line does. |
| `Decimals.ParseIntExact` | pkg/clientconfig/conf_parser.go:167-172 | A text is a number exactly if it is digits behind at most one sign and fits in 32 bits, and then the sum of its digits by their places. |
| `ConfigLines.LineIs` | pkg/commonstructs/common_structs.go:31-36 | The printed line of an entry, letter by letter. |
| `ConfigText.LineParses` | pkg/commonstructs/common_structs.go:31-36 | The printed line of a printable entry is read back as that entry; without host id the reader runs off its end. |
| `ConfigText.ParsedSetCleanly` | pkg/clientconfig/conf_parser.go:143-217 | Whatever the text, every parsed entry is verified, from the user, over tcp, with a resolvable address and fields that are single tokens. |
| `ConfigText.PrintParse` | pkg/clientconfig/conf_parser.go:118-222 | For every list of entries, the lines of the printed file give back exactly that set of entries if and only if each has transport tcp, a non-zero 32-bit port, a resolvable address, and other fields that are non-empty and free of white space, '=' and '#'. |
| `ConfigText.PrintThenParse` | pkg/clientconfig/conf_parser.go:118-238 | Printing a list of entries and parsing the file, duplicates merged, gives back every entry once and nothing else, under exactly that condition. |
| `ConfigText.CreateEntries` | pkg/clientconfig/configgen.go:41-86 | Succeeds exactly when all names are given and every address splits, resolves and has a 16-bit port, and then has one entry per address in order. |
| `ConfigLines.PortIs` | pkg/clientconfig/configgen.go:41-86 | A port is digits without sign below 65536, by their places. |
| `ConfigLines.EndpointIs` | pkg/clientconfig/configgen.go:41-86 | An address is taken exactly if it splits, its host resolves and its port is such a number, and then it is that host and port. |
| `ConfigText.CreatedParse` | pkg/clientconfig/configgen.go:41-86 | Created entries come back from their file if and only if the transport is tcp, no port is 0 and all names are single tokens. |

## Left out

- Sockets, buffered I/O, timers, contexts and goroutine scheduling: handlers are atomic steps, and file events,
  timeouts and hang-ups are inputs.
- The field packing library and the JSON encoder: fields are packed at fixed widths, and the persisted fields of
  an entry survive storing.
- FillDiscoveryLogPage is an interface: it is taken to give the records from index offset/1024 on, at most as many
  as asked for, together with the number of records and the generation.
- Writing the internal file is taken to succeed; which of user directory and internal file is newer is an input of
  the restart step.
- A discover that goes on while the timer's Stop is under way: it is taken to fail, although replies could still complete
  it. At the same instant, the timer is taken to come first.
- The service's channels: scheduled reconnects, the stop channel shared by all clusters, and what a notification
  handled after Stop would do. No liveness is claimed.
- Calls from the service into the host API (Disconnect on removal and on Stop) and the NVMe connect of devices.
- Deep comparison of connections in ClusterConnections.Exists: two different connections differ in their channel,
  so it is modelled as being the same object.
- Cache.Clear, the file watcher, auto-detection of entries, sysfs, ioctl, logging, metrics other than the entry
  count, and the command line.
- Which completed request a waiting caller gets from the shared channel of the host's queue, and its timeouts.
- The submission queue id and the result field of completions, the keep-alive time, and the contents of Identify.
- The queue's destroy and the controller's registration with the subsystem.
- Address resolution and the splitting of host and port: parameters of the parser and of CreateEntries.
- The 64 KiB line limit of the configuration scanner.
- ClientService.Service.HandleNotification: asks that the tables in the message are the cache's, apart from the service's own, and
  that the connections they show are open; Clients.Client.MessageShows proves this of every message of a valid client.
- ConnTables.HostApi.RunClient: when each reply comes, and whether it is usable, is an input; the commands themselves are the subject of the
  session.
- Framing.HostStreamFramed: the commands after the connect are any that are not connects themselves; the byte layout of those that the
  host sends is in the session.
- Sessions.SessionServed: each command is answered before the next is sent, as the host does it; keep-alive and Async Event requests,
  which are sent beside the session, are left to the queue results.
