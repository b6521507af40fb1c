# WiFi AC daemon: a verified model

`smartac` is a small daemon on a WiFi access point. It pings an AC (access controller) server with the list of
connected clients and their traffic, runs the shell commands the server sends back, posts their output, and fails
over between servers. Shell scripts beside it edit firewall rules. This project models the parts of it whose
correctness is not visible in one function body, and proves what they are meant to guarantee, for all inputs and all
runs.

`dafny verify dfyconfig.toml` checks the whole project.

## How the model is laid out

| file | models |
|---|---|
| `AcServers.dfy` | the heap list of servers, `mark_ac_server_bad`, and the recursive failover, for every behaviour of the network |
| `FailoverSteps.dfy` | the same failover as a state machine over single pointer reads and writes, with any number of threads and the unlocked reader |
| `ResultQueue.dfy`, `QueueSystem.dfy` | the queue of command results: as a heap class refining a sequence, and as a state machine of inserting threads and the main loop |
| `PostResult.dfy` | the HTTP request a result becomes, and the remote command cut out of a ping response |
| `Pstr.dfy` | the growing string buffer and the `http_get` loop |
| `MacTables.dfy` | the MAC black and white lists: two rule chains and two files under four commands |
| `CountRules.dfy`, `TrafficFile.dfy`, `TrafficListing.dfy` | the traffic counting rules kept in step with the ARP table, the traffic file joined from them, and the lines of `iptables` it is grepped from |
| `ConfigText.dfy`, `ConfigReader.dfy`, `ConfigPrinter.dfy`, `ConfigOptions.dfy` | the configuration file: what a text means, the reader that cuts line buffers in place, a printer of server blocks it inverts, and what each line outside them does |
| `ClientList.dfy`, `LeaseFile.dfy`, `DeviceInfo.dfy`, `PingJson.dfy`, `Ping.dfy` | lease and traffic files to linked lists, the join, the device file, the JSON text, the ping request, and what the server reads out of it |
| `TrafficPing.dfy` | one update of the rules, the traffic file and the ping that reads it, put together |
| `Json.dfy`, `Decimal.dfy`, `Text.dfy`, `Rotation.dfy`, `Seqs.dfy`, `Limits.dfy`, `Wrappers.dfy` | JSON with a reference reader, decimal numbers, text search and splitting, cyclic order, shared constants |

Where the C code changes objects step by step, the model does the same in a class, and each method's contract ties the
new state to a function of the old one; the lemmas are about those functions.

## The main results

- **Failover.** One call of `connect_ac_server` asks about the servers in cyclic order from the head, each at most once,
  and stops at the first that does not call for the next one; the list is the old one rotated by the number of failed
  servers, and is the old one if all fail. The call returns the socket of the first server that is not passed over if
  that one accepts, and -1 otherwise, told by the answers of the network alone. Interleaved with any other threads, whenever the lock is free the
  list is a rotation of the configured one; in every intermediate state, also while the list is a cycle, the unlocked
  reader of the head gets a configured server. A search connects if and only if some attempt is accepted, and gives up
  if and only if an attempt is answered with the end of the search or all servers fail. The search holds the lock for a bounded number of instructions. The
  server a request names is read before the search; if nobody moved a server since, it is the one connected to if and
  only if the first server tried accepts, and a run shows that it may be another.
- **Result queue.** In every interleaving each inserted result is in exactly one place, leaves in insertion order with
  its own bytes, and the heap holds nothing else. `rear` is the last node at all times except exactly between the two
  writes of an insertion and those of a removal that empties the queue. An inserted result is handed over after at most
  eight instructions of the main loop for it and for each result before it.
- **Framing.** The posted request carries a correct Content-Length if and only if the output has no zero byte and the
  request fits its buffer (RFC 1945, sections 4.1 and 10.4).
- **MAC tables.** After every single edit of every run no address is both dropped and marked or has two rules, if and
  only if no `black` command with the flag "no wifidog" lists an address that is marked; with a fixed flag, and no
  marks to begin with where it says "no wifidog", there is no such command. Whatever flags the commands before it had,
  a `black` or `white` command leaves its chain in a state that does not depend on them: a rule for exactly the addresses
  of its list, in either case, in front of the rules of others.
- **Responses.** The response does not depend on how the network divides the stream into reads if and only if all zero
  bytes of the stream stand at its end.
- **Counting rules.** One update reconciles the rules with the ARP table if and only if no look-alike address gets in
  the way; that the live addresses do not match each other is not enough, and a counterexample shows it. A second update
  changes nothing under an exact condition on the chain and the ARP table, and a third one never does. The traffic
  file has whole records if and only if no counted address matches another one or the counters in the `iptables` line
  of another one, and for any two hosts there is a counter that breaks a record. Without such matches, after an update
  every client in the ARP table arrives at the server with the counters of its two rules.
- **Configuration and ping.** Reading inverts printing: for server blocks in any layout, for every option outside them,
  for comma lists, and for the JSON text of a ping, from the leases, the traffic file and the device file to the value the
  server finds under each key.

## Conventions

- A C `char` is a Dafny `char`, the terminating byte is `'\0'`. A file is the string of its bytes; the configuration,
  lease and traffic files have no zero bytes.
- Integers are unbounded, except the port, which `htons` reduces modulo 65536.
- The network is an arbitrary function. A lookup is identified by the recursion level and by which name is asked, so
  the same name may be answered differently every time.
- `FailoverSteps` numbers the servers 0, ..., n - 1 in the order of the configuration file; `QueueSystem` numbers heap
  nodes and allows any number of inserting threads, of which the program has one.
- `_connect_ac_server` is split into `ConnectAt` and one method for each of its branches.
- The device file and the wifidog status go into a ping as they are; the theorems ask only that the reader of JSON
  accepts each of them, and `DeviceInfo` shows it for the device file the script writes.
- The guarded edits of the MAC script are recorded in a ghost log; an edit that finds nothing to do is recorded too.
- A `'}'` anywhere in a line ends a server block, and a keyword that runs right up to a `'#'` takes the text behind the
  `'#'` as its value. The code does so and the model follows it.

## Model

| member | source | states |
|---|---|---|
| Rotation.RotateTwice | src/smartac_config.c:567-583 | moving j and then k servers to the end is moving j + k |
| Rotation.RotationPermutes | src/smartac_config.c:563-583 | a rotated list has exactly the servers of the original, each once |
| AcServers.AcServer.constructor | src/smartac_config.c:264-271 | a new server node has the fields of its block, no known address and no successor |
| AcServers.Config.constructor | src/smartac_config.c:108-114 | the list starts empty |
| AcServers.Config.LastServer | src/smartac_config.c:574 | the walk to the last node ends and returns the last server |
| AcServers.Config.Append | src/smartac_config.c:273-279 | a parsed server goes to the end of the list; all others keep their place |
| AcServers.Config.MarkBad | src/smartac_config.c:567-583 | the three pointer writes rotate the list by one if the argument is the head, and otherwise change nothing; the list stays acyclic with distinct nodes |
| AcServers.Config.CountServers | src/smartac_http.c:79-82 | the count is the length of the list |
| AcServers.Config.AskPopular | src/smartac_http.c:109-124 | true exactly if some popular server resolves at this level |
| AcServers.Network.ResolveServer | src/smartac_http.c:99-101 | the answer for the name of the server, which is noted as asked about |
| AcServers.Config.ConnectAt | src/smartac_http.c:56-233 | one level of the recursion, for every network: terminates, rotates the list by the number of failures, asks about exactly the servers up to the first that settles the call, and leaves each server the right last address |
| AcServers.Config.ConnectUnresolved | src/smartac_http.c:102-159 | the branch for an unresolved name: next server if a popular name resolves, with the last address forgotten, else the search ends |
| AcServers.Config.ConnectResolved | src/smartac_http.c:160-232 | the branch for a resolved name: address remembered; no socket ends the search, a refused connection goes on, an accepted one returns its socket |
| AcServers.Config.TryNext | src/smartac_http.c:221-222 | marking the head as bad and recursing asks about the rest of the list in cyclic order |
| AcServers.Config.Remember | src/smartac_http.c:170-187 | the head gets the address, no other server is touched |
| AcServers.Config.ConnectAcServer | src/smartac_http.c:32-50 | the whole call, told by what the network answers to lookups, sockets and connections: the names looked up are those of a prefix of the cyclic order, each once; no server is lost or repeated; the first server that is not passed over becomes the head, and its socket is returned if it resolves and accepts, otherwise -1; if all are passed over the order is the original one; every server is left with the right last address |
| AcServers.VerdictMeans | src/smartac_http.c:98-232 | the next server is tried exactly if the name of this one does not resolve while a popular name does, or if it refuses the connection; it is connected to exactly if it resolves, gets a socket and accepts |
| AcServers.CallMeans | src/smartac_http.c:98-232 | where the search stops, and the last address of every server, told by the answers of the network |
| AcServers.IpsAfterIs | src/smartac_http.c:141-187 | a server skipped for its name has no address, one that was resolved has the address found, the others keep theirs |
| AcServers.TriedIsHeadFirst | src/smartac_http.c:145-146 | a level asks about the head, then about what the next level asks about on the rotated list |
| AcServers.FirstStopIs | src/smartac_http.c:98-232 | the server the search stops at is the only one that settles the call with nothing but skipped servers before it |
| AcServers.ConnectsExactly | src/smartac_http.c:98-232 | a call returns a socket if and only if some server accepts and every server before it is one that is skipped |
| AcServers.OutcomeAfterSkip | src/smartac_http.c:145-146 | the outcome of the recursive call on the rotated list is the outcome on this list with the skipped head tried first |
| AcServers.NextCallStaysPut | src/smartac_http.c:98-232 | under unchanged network conditions the next call stops at once at the server the last one stopped at |
| AcServers.HeadStaysExactly | src/smartac_post_result.c:42-84 | a successful call leaves the head where it was if and only if the first server accepts |
| FailoverSteps.ListStep | src/smartac_http.c:69-231 | every single read or write of the lock holder dereferences a live pointer and keeps the shape of the list for its program point |
| FailoverSteps.StepKeepsInv | src/smartac_config.c:567-583 | every step of every thread keeps the invariant: one thread inside the lock, every unlocked read configured, the list linear or, between the writes, cyclic |
| FailoverSteps.RunKeepsInv | src/smartac_http.c:32-50 | the invariant holds in every state of every run |
| FailoverSteps.InitExists | src/smartac_config.c:273-279 | for every number of servers there is a state to start from |
| FailoverSteps.FollowLinear | src/smartac_config.c:567-583 | following the pointers of a linear list gives the configured servers from some server on, around the wrap |
| FailoverSteps.FreeListIsRotation | src/smartac_http.c:36-40 | whenever the lock is free the list is acyclic and a rotation of the configured one: the same servers, each once |
| FailoverSteps.UnlockedReadIsSafe | src/smartac_config.c:554-560 | at every moment of every run the head read without the lock is a configured server |
| FailoverSteps.NoThreadGoesWrong | src/smartac_http.c:36-40 | no thread follows a dangling pointer and no two threads are inside the lock |
| FailoverSteps.WalkDuringMoveNeverEnds | src/smartac_config.c:575-580 | between the first and the last write a walk over the list would never end |
| FailoverSteps.SearchRotates | src/smartac_http.c:145-146 | from the start of a search to its return the list is the one it found rotated by the number of failed levels, for every interleaving |
| FailoverSteps.TriesInOrder | src/smartac_http.c:98-101 | the server tried at a level is that many places behind the head the search found |
| FailoverSteps.TriesEachOnce | src/smartac_http.c:86-101 | attempts at different levels of one search are at different servers |
| FailoverSteps.ReplyDecides | src/smartac_http.c:204-231 | the reply to the attempt of any level decides the search: accepted, it returns with this server; ended, it returns without; refused, it has given this server up for good |
| FailoverSteps.FailMovesOn | src/smartac_http.c:211-222 | after the attempt of level l failed the next level starts, with exactly the l servers tried so far moved to the end |
| FailoverSteps.SearchEnds | src/smartac_http.c:56-233 | at its end a search has moved exactly the servers whose attempts failed; it is connected if and only if some attempt was accepted, and unconnected if and only if some attempt ended it or all n servers were tried and failed |
| FailoverSteps.RequestNamesConnected | src/smartac_post_result.c:42-84 | a search that connects reaches the server as many places behind the head it found as servers failed; without a move since the read, the request names that server if and only if the first attempt was accepted |
| FailoverSteps.RequestMayNameAnother | src/smartac_ping.c:85-155 | a run in which the request names server 0 and the socket reaches server 1 |
| FailoverSteps.GivingUpRestoresTheOrder | src/smartac_http.c:86-93 | a search that gives up because the level exceeds the number of servers leaves the list exactly as it found it |
| FailoverSteps.RankFalls | src/smartac_http.c:56-233 | every instruction of the search lowers a rank that never gets negative |
| FailoverSteps.InstructionsBounded | src/smartac_http.c:56-233 | so a thread inside the lock has at most as many instructions left as its rank says |
| FailoverSteps.SearchTerminates | src/smartac_http.c:73-93 | one search holds the lock for at most (n + 1)(2n + 8) instructions, whatever the network and other threads do |
| ResultQueue.CopyFits | src/smartac_resultqueue.c:92-97 | allocating again for an allocated size never gives a smaller buffer, so the copy in getout_queue fits |
| ResultQueue.BufferSizeIs | src/smartac_resultqueue.c:28-36 | a buffer has one byte more than asked for, unless that is more than the largest buffer has |
| ResultQueue.ReadFitsExactly | src/smartac_resultqueue.c:34-36 | the buffer holds the whole output if and only if it has at most MAX_CMD_OUT_BUF + 2 bytes |
| ResultQueue.DeliveredIsTerminated | src/smartac_resultqueue.c:28-45 | through both allocations the consumer gets the output, its length, and zeros behind it; a terminating zero exactly up to MAX_CMD_OUT_BUF + 1 bytes |
| ResultQueue.CopyBytes | src/smartac_resultqueue.c:97 | the first n bytes are copied and the rest of the target is kept |
| ResultQueue.Result.constructor | src/smartac_resultqueue.c:28-45 | the clamped, incremented size, all bytes zero, length zero |
| ResultQueue.CopyResult | src/smartac_resultqueue.c:92-98 | the copy has the same bytes and length, in a fresh buffer |
| ResultQueue.Queue.constructor | src/smartac_resultqueue.c:49-61 | a new queue is the sentinel alone, hence empty |
| ResultQueue.Queue.Insert | src/smartac_resultqueue.c:112-129 | the contents grow by the element at the end |
| ResultQueue.Queue.GetOut | src/smartac_resultqueue.c:79-108 | null exactly from the empty queue; otherwise a fresh copy of the first element, which leaves the queue |
| ResultQueue.Queue.LinkBehind | src/smartac_resultqueue.c:123-124 | the two writes of an insertion put the node behind the last one |
| ResultQueue.Queue.UnlinkFirst | src/smartac_resultqueue.c:100-102 | the two writes of a removal take out the first node, also when it is the last |
| QueueSystem.StepKeepsInv | src/smartac_resultqueue.c:79-129 | every instruction of every thread keeps the invariant: ownership of every node, chain in insertion order, place of rear, delivery in order |
| QueueSystem.RunKeepsInv | src/smartac.c:243-253 | the invariant holds in every state of every run |
| QueueSystem.FollowQueue | src/smartac_resultqueue.c:121-124 | following next from a queued node gives the nodes inserted after it, in order |
| QueueSystem.FreeQueueShape | src/smartac_resultqueue.c:79-129 | whenever the mutex is free the list holds exactly the results inserted and not taken, in order; rear is its last node with a null next; front == rear exactly if it is empty |
| QueueSystem.ShapeBreaksBetweenWrites | src/smartac_resultqueue.c:100-124 | between the two writes of an insertion rear is not the last node; between those of a removal that empties the queue rear is outside the list |
| QueueSystem.RearIsLastExactly | src/smartac_resultqueue.c:100-124 | rear is the last node and ends the list if and only if the program is at neither of these two places |
| QueueSystem.EmptyTestIsExact | src/smartac_resultqueue.c:84-88 | the test front == rear says at that moment exactly whether the queue is empty |
| QueueSystem.EachResultInOnePlace | src/smartac.c:243-253 | every inserted result is exactly one of: handed over, in the hands of the main loop, queued; with its own bytes and length, in insertion order |
| QueueSystem.HeapIsExact | src/smartac_resultqueue.c:104-105 | every allocated node has exactly one owner, nothing is freed early, and no thread inside the mutex is stuck |
| QueueSystem.DistanceFalls | src/smartac.c:243-253 | while a result is inserted and not handed over, every instruction of the main loop comes one nearer to handing it over, and no other thread's takes it further away |
| QueueSystem.HandedOverInTime | src/smartac.c:243-253 | in every run result r, inserted when h results had been handed over, is handed over with its own bytes after at most 8 (r + 1 - h) instructions of the main loop |
| QueueSystem.PostedIfCreated | src/smartac.c:247-253 | a result that was handed over is posted exactly if a thread could be created at that moment, and dropped otherwise |
| QueueSystem.MutexIsGivenBack | src/smartac_resultqueue.c:79-129 | at every moment of every run the main loop can go on, or else one inserting thread is inside the mutex, can go on, and leaves it after at most three instructions |
| QueueSystem.ResultGetsThrough | src/smartac.c:243-253 | a run that inserts any given result and hands its copy to a posting thread, leaving the sentinel alone |
| PostResult.PostCopyFitsExactly | src/smartac_post_result.c:53 | the copy into the local data buffer fits if and only if the output has at most MAX_CMD_OUT_BUF - 2 bytes |
| PostResult.ThreadPostResult | src/smartac_post_result.c:31-73 | the request is the frame around the string in the result buffer, cut to the request buffer |
| PostResult.ReadOfFrame | src/smartac_post_result.c:59-73 | a reader of messages (RFC 1945, section 4.1) gets back the header lines and the body |
| PostResult.CutFrame | src/smartac_post_result.c:59 | cutting a request inside its body cuts the body and nothing else |
| PostResult.CutInHead | src/smartac_post_result.c:59 | a request cut inside its head cannot be read |
| PostResult.SentIsRead | src/smartac_post_result.c:59-73 | a request is read back with exactly as much of the body as the buffer kept, and not at all if its head does not fit |
| PostResult.HeadLinesRead | src/smartac_post_result.c:63 | the Content-Length a reader finds is the number printed |
| PostResult.HeadLinesMean | src/smartac_post_result.c:59-73 | a reader finds in the head the method, the result path and the version in the request line (RFC 1945, section 5.1), and under the names of the five header lines the host, the agent, the content type, the length and close |
| PostResult.PostedIsWellFramedExactly | src/smartac_post_result.c:53-73 | from output through both copies to the request: the Content-Length is the number of body bytes, and the body is the output, if and only if the output has no zero byte and the request fits |
| PostResult.RemoteCommandOfFramed | src/smartac_remotecmd.c:70-79 | a response "text, bar, id, bar, mark, command" gives back the command, which may itself contain bars |
| PostResult.OneBarIsMalformed | src/smartac_remotecmd.c:70-79 | a response with one bar only has no command: the code goes on from a null pointer |
| PostResult.NothingToDoExactly | src/smartac_ping.c:174-190 | nothing is run exactly if the response does not say Pong or has no bar, and a command needs two bars |
| PostResult.ExcuteRemoteShellCommand | src/smartac_remotecmd.c:89-117 | the output of the command is queued with its length; without output nothing is queued and the status is -1 |
| Pstr.StrLen | src/smartac_util.c:336 | the length of the string is the position of its first zero |
| Pstr.CapacityIsLeast | src/smartac_util.c:337-339 | the capacity is the least number of whole blocks with room for the terminating zero |
| Pstr.Pstr.constructor | src/smartac_util.c:286-297 | an empty text in one block |
| Pstr.Pstr.Grow | src/smartac_util.c:320-325 | one block more, the old bytes kept |
| Pstr.Pstr.Append | src/smartac_util.c:340-341 | the text grows by the source and is terminated inside the buffer |
| Pstr.Pstr.Cat | src/smartac_util.c:333-342 | the text is the old one followed by the string; capacity and termination are those of the new length alone; the grow loop ends |
| Pstr.FillReadbuf | src/smartac_http.c:286-294 | the string in the buffer is the part of the chunk before its first zero |
| Pstr.HttpGet | src/smartac_http.c:244-319 | nothing on any failure, otherwise what the chunks contribute one after the other |
| Pstr.ReceivedIsStream | src/smartac_http.c:274-305 | the response is the byte stream if and only if the stream has no zero byte |
| Pstr.ReceivedBeforeZeros | src/smartac_http.c:274-305 | if all zeros of the stream stand at its end, the response is what stands before them, for every division |
| Pstr.DivisionMattersWithZeros | src/smartac_http.c:287-295 | a stream with a zero in front of another byte has two divisions into reads with different responses |
| Pstr.DivisionMattersExactly | src/smartac_http.c:274-305 | all divisions of a stream into reads give the same response if and only if all zeros stand at its end |
| MacTables.MacOccursOnce | scripts/WifiSmartAcCmd/accmd_update_mac_fw_tables:105 | a rule's line matches the pattern of an address only if it is the rule of that address |
| MacTables.GrepIsExact | scripts/WifiSmartAcCmd/accmd_update_mac_fw_tables:105-111 | grep on the listing says exactly whether the address has its rule |
| MacTables.GuardsAreExact | scripts/WifiSmartAcCmd/accmd_update_mac_fw_tables:105-114 | the guarded deletion is plain deletion, the guarded insertion inserts exactly what is missing, also for malformed lines |
| MacTables.DeletesFirst | scripts/WifiSmartAcCmd/accmd_update_mac_fw_tables:172 | a deletion takes out the first rule of the address and leaves all other rules in place and order |
| MacTables.DeleteEffect | scripts/WifiSmartAcCmd/accmd_update_mac_fw_tables:172 | a deletion removes one rule of the address if there is one, and counts of other addresses stay |
| MacTables.DeleteKeepsSafe | scripts/WifiSmartAcCmd/accmd_update_mac_fw_tables:165-192 | no deletion breaks the invariant |
| MacTables.ScriptIsExec | scripts/WifiSmartAcCmd/accmd_update_mac_fw_tables:198-246 | the edits of one run of the script, one after the other, compute the tables of the closed form |
| MacTables.SafeAlongIs | scripts/WifiSmartAcCmd/accmd_update_mac_fw_tables:95-192 | being safe along a list of edits is being safe after each of its prefixes |
| MacTables.DropIsSafeExactly | scripts/WifiSmartAcCmd/accmd_update_mac_fw_tables:110-114 | dropping an address of the black file keeps the invariant if and only if it is not marked |
| MacTables.MarkIsSafeExactly | scripts/WifiSmartAcCmd/accmd_update_mac_fw_tables:152-156 | marking an address of the white file keeps the invariant if and only if it is not dropped |
| MacTables.DeleteAllClears | scripts/WifiSmartAcCmd/accmd_update_mac_fw_tables:165-175 | after the loop no address of the file has a rule, every other keeps its own |
| MacTables.CancelClears | scripts/WifiSmartAcCmd/accmd_update_mac_fw_tables:165-192 | on a safe state cancelling leaves exactly the rules of others, in their order |
| MacTables.AddAllCounts | scripts/WifiSmartAcCmd/accmd_update_mac_fw_tables:120-128 | every address of the file has a rule afterwards, none has a second one |
| MacTables.CommandIsSafeExactly | scripts/WifiSmartAcCmd/accmd_update_mac_fw_tables:198-246 | on safe tables and for any flag, a command keeps the invariant after every single edit, and in the end, if and only if it does not drop an address that stays marked |
| MacTables.RunIsSafeExactly | scripts/WifiSmartAcCmd/accmd_update_mac_fw_tables:198-246 | over every run, with any flag for each command, the invariant holds after every single edit if and only if no command does that |
| MacTables.FixedFlagNeverClashes | scripts/WifiSmartAcCmd/accmd_update_mac_fw_tables:95-131 | with a fixed flag no command does that |
| MacTables.EveryEditIsSafe | scripts/WifiSmartAcCmd/accmd_update_mac_fw_tables:198-246 | with a fixed flag, after every single edit of every run: no address has two rules in all, dropped ones are in the black file and marked ones in the white file |
| MacTables.RunKeepsForeigns | scripts/WifiSmartAcCmd/accmd_update_mac_fw_tables:198-246 | no run moves a rule of anybody else |
| MacTables.AddAllToForeigns | scripts/WifiSmartAcCmd/accmd_update_mac_fw_tables:95-131 | adding a list to a cleared chain puts the first occurrences of its addresses, reversed, in front of the other rules |
| MacTables.SafeIsTidy | scripts/WifiSmartAcCmd/accmd_update_mac_fw_tables:95-192 | the invariant is a weaker one together with "no address is both dropped and marked" |
| MacTables.ExecKeepsTidy | scripts/WifiSmartAcCmd/accmd_update_mac_fw_tables:198-246 | every command with any flag keeps the weaker one: one rule an address in each chain, each in its file |
| MacTables.RunKeepsTidy | scripts/WifiSmartAcCmd/accmd_update_mac_fw_tables:198-246 | so does every run |
| MacTables.BlackForgetsHistory | scripts/WifiSmartAcCmd/accmd_update_mac_fw_tables:209-212 | after `black` the INPUT chain is the new rules and the rules of others in their old order, whatever ran before with whatever flags |
| MacTables.WhiteForgetsHistory | scripts/WifiSmartAcCmd/accmd_update_mac_fw_tables:221-224 | the same for `white` with the flag "wifidog" and the mark chain |
| MacTables.LinesOfJoined | scripts/WifiSmartAcCmd/accmd_update_mac_fw_tables:74-89 | the list file has every address of the list in upper case, one a line, in order |
| MacTables.BlackDropsExactly | scripts/WifiSmartAcCmd/accmd_update_mac_fw_tables:209-220 | whatever ran before, `black` with a list of addresses in either case drops exactly these, first occurrences last first in front of the rules of others, takes their marks out if the flag says wifidog, and succeeds |
| MacTables.WhiteMarksExactly | scripts/WifiSmartAcCmd/accmd_update_mac_fw_tables:221-232 | the same for `white` and the mark chain; without wifidog it fails, with no marks of this script left |
| MacTables.CancelTakesOut | scripts/WifiSmartAcCmd/accmd_update_mac_fw_tables:233-240 | the cancelling commands leave exactly the rules of others in their chain, change nothing else, and succeed |
| MacTables.OtherFlagChangesNothing | scripts/WifiSmartAcCmd/accmd_update_mac_fw_tables:241-245 | any other flag changes nothing, and the script does not fail |
| MacTables.RepeatChangesNothing | scripts/WifiSmartAcCmd/accmd_update_mac_fw_tables:208-240 | after any run, repeating a command changes neither chain and neither file |
| MacTables.ChangingTheFlagBreaksSafety | scripts/WifiSmartAcCmd/accmd_update_mac_fw_tables:99-128 | a flag that changes between two commands leaves any given address both dropped and marked |
| MacTables.Firewall.DeleteDrop | scripts/WifiSmartAcCmd/accmd_update_mac_fw_tables:169-173 | the guarded deletion from INPUT is the edit it is logged as |
| MacTables.Firewall.InsertDrop | scripts/WifiSmartAcCmd/accmd_update_mac_fw_tables:110-114 | the guarded insertion into INPUT is the edit it is logged as |
| MacTables.Firewall.DeleteMark | scripts/WifiSmartAcCmd/accmd_update_mac_fw_tables:186-190 | the guarded deletion from the mark chain is the edit it is logged as |
| MacTables.Firewall.InsertMark | scripts/WifiSmartAcCmd/accmd_update_mac_fw_tables:152-156 | the guarded insertion into the mark chain is the edit it is logged as |
| MacTables.Firewall.CancelBlackMacList | scripts/WifiSmartAcCmd/accmd_update_mac_fw_tables:165-175 | exactly one deletion from INPUT for every line of the black file, in order |
| MacTables.Firewall.CancelWhiteMacList | scripts/WifiSmartAcCmd/accmd_update_mac_fw_tables:181-192 | exactly one deletion from the mark chain for every line of the white file, in order |
| MacTables.Firewall.SetMacList | scripts/WifiSmartAcCmd/accmd_update_mac_fw_tables:74-89 | the file is emptied, then written |
| MacTables.Firewall.AddMacToBlackRule | scripts/WifiSmartAcCmd/accmd_update_mac_fw_tables:95-131 | for every line of the black file, in order: unmarked, if the device has wifidog, then dropped |
| MacTables.Firewall.AddMacToWhiteRule | scripts/WifiSmartAcCmd/accmd_update_mac_fw_tables:137-160 | refused without wifidog; otherwise for every line of the white file, in order: undropped, then marked |
| MacTables.Firewall.MainOperation | scripts/WifiSmartAcCmd/accmd_update_mac_fw_tables:198-246 | one run of the script makes exactly the edits of its script, in their order, and so computes the tables and the exit status of the closed form |
| CountRules.PurgeIsWithout | scripts/update_ac_information.sh:94-102 | the second loop removes exactly the pairs of addresses grep does not find in the ARP table; other rules keep order and counters |
| CountRules.AddKeepsPaired | scripts/update_ac_information.sh:82-90 | the first loop keeps the rules paired, one pair an address |
| CountRules.UpdateIs | scripts/update_ac_information.sh:79-104 | for paired chains, whatever matches what: new pairs with zero counters in front of the old chain without the dead pairs, and the rules stay paired |
| CountRules.NewPairsAre | scripts/update_ac_information.sh:82-90 | the new pairs are those of the lines that grep did not find when their turn came, the last line first, each with DOWNLOAD in front of UPLOAD |
| CountRules.MissedForGood | scripts/update_ac_information.sh:84-89 | an address whose turn is missed because another one matched is not counted by this update |
| CountRules.CoversIffReached | scripts/update_ac_information.sh:82-90 | after the first loop every ARP address is counted if and only if each was reached |
| CountRules.ReconcilesExactly | scripts/update_ac_information.sh:79-104 | the counted addresses are the ARP addresses after the update if and only if every ARP address is reached and no stale address looks like a live one |
| CountRules.NoMatchesSuffice | scripts/update_ac_information.sh:84-96 | that no two different addresses, live or counted, match each other is sufficient |
| CountRules.StaleLookalikeHidesAddress | scripts/update_ac_information.sh:84 | that the live ones do not match each other is not: a stale look-alike leaves the one live address uncounted |
| CountRules.SecondUpdateChangesNothing | scripts/update_ac_information.sh:79-104 | a second update changes nothing if and only if, before the first, every ARP address matched a counted address that stays or an ARP address that matched nothing counted |
| CountRules.ThirdUpdateChangesNothing | scripts/update_ac_information.sh:79-104 | a third update never changes anything, and grep then finds every ARP address |
| CountRules.SecondUpdateMayAdd | scripts/update_ac_information.sh:84-101 | with 10.0.0.10 counted and only 10.0.0.1 in the ARP table the first update removes and the second adds |
| CountRules.MatchTransitive | scripts/update_ac_information.sh:84 | matching an address with another as a pattern is transitive |
| CountRules.CleanUpRemovesAllExactly | scripts/update_ac_information.sh:61-69 | the clean-up leaves exactly the rules of others, in order, if and only if no address has more UPLOAD than DOWNLOAD rules |
| CountRules.UpdateCounts | scripts/update_ac_information.sh:79-104 | what an update leaves of the rules of an address, for any chain: a dead one keeps only the UPLOAD rules it had in excess |
| CountRules.CleanUpAfterUpdate | scripts/update_ac_information.sh:61-104 | after an update of any chain the clean-up leaves exactly the rules of others if and only if no address had more UPLOAD than DOWNLOAD rules |
| TrafficFile.FileIsWholeExactly | scripts/update_ac_information.sh:110-120 | all records of the traffic file are whole if and only if grep finds exactly one UPLOAD rule for each DOWNLOAD rule |
| TrafficFile.PairedFileIsWholeExactly | scripts/update_ac_information.sh:110-120 | for paired chains whose UPLOAD lines show their addresses, whatever else is in them: if and only if grep finds no counted address in the line of another one |
| TrafficFile.LookalikeBreaksRecord | scripts/update_ac_information.sh:117-118 | a counted address that matches another counted one has a broken record, also in chains that are not paired |
| TrafficFile.NeighboursBreakRecord | scripts/update_ac_information.sh:117-118 | with 10.0.0.1 and 10.0.0.10 both counted a record is broken in two, for any listing that shows both addresses and any counters |
| TrafficListing.LineShows | scripts/update_ac_information.sh:117 | in an UPLOAD line of `iptables -nvx` grep finds exactly the addresses that it finds in the address of the rule or in its two counters |
| TrafficListing.SecondColumn | scripts/update_ac_information.sh:117 | what awk prints as the second column of the line is the byte counter |
| TrafficListing.ListingApart | scripts/update_ac_information.sh:117 | for such a listing grep finds no counted address in the line of another one if and only if none matches another one or its counters |
| TrafficListing.ListedFileIsWholeExactly | scripts/update_ac_information.sh:110-120 | for paired chains with such a listing all records are whole if and only if no counted address matches another one or the counters of its UPLOAD rule |
| TrafficListing.ShortFileIsWholeExactly | scripts/update_ac_information.sh:110-120 | while no counter has seven digits, if and only if no counted address matches another one |
| TrafficListing.CounterBreaksRecord | scripts/update_ac_information.sh:117-118 | for any two hosts, if the address of the one does not start with a zero, there is a byte counter of the other at which a record is broken, whatever the other counters are |
| TrafficFile.WholeRecordLine | scripts/update_ac_information.sh:187-194 | a whole record gets its two rates, with one blank between any two fields |
| TrafficFile.ShortRecordIsRead | src/smartac_json_util.c:231-263 | a line with four fields has no last rate: it is zero |
| TrafficFile.FileIsRead | scripts/update_ac_information.sh:110-195 | with one UPLOAD rule and one rate of each kind for every DOWNLOAD rule, the daemon reads from the file exactly one record for each, with its counters and rates, in the order of the chain |
| TrafficFile.PairedFileIsRead | scripts/update_ac_information.sh:110-195 | so it does for paired chains in which grep finds no counted address in the line of another one |
| CountRules.UpdateKeepsCounters | scripts/update_ac_information.sh:79-104 | after an update of a paired chain an address counted before has its old counters, a new one zeros |
| TrafficPing.JoinedIsReported | src/smartac_json_util.c:321-349 | a client joined with the records of such a chain gets the counters of its two rules and its rates, one that is not counted is unchanged |
| TrafficPing.UpdateIsReported | scripts/update_ac_information.sh:229-236 | after an update, if no two addresses, live or counted, match each other or another one's counters, the daemon reads the counters of its two rules for every client in the ARP table and nothing for any other |
| TrafficPing.CountersArrive | src/smartac_ping.c:96-148 | so what the server reads out of the ping request is one JSON object with the leases in file order, each that is in the ARP table with the counters of its two rules after the update |
| CountRules.CountChain.UpdateFwCountRule | scripts/update_ac_information.sh:79-104 | the two loops over the chain compute the specified chain |
| CountRules.CountChain.ChainCleanUp | scripts/update_ac_information.sh:61-69 | the loop over the DOWNLOAD listing computes the specified chain |
| ConfigText.TrimEnd | src/smartac_config.c:203-206 | blanks before the cut go, one character always stays |
| ConfigReader.StrChr | src/smartac_config.c:195-199 | the first position of the character, or none |
| ConfigReader.FindCut | src/smartac_config.c:194-201 | the line ends at its first '#', else at its CR, else at its LF |
| ConfigReader.CutLine | src/smartac_config.c:194-206 | the buffer then holds zeros exactly over the cut and the blanks before it |
| ConfigReader.SplitLine | src/smartac_config.c:210-221 | keyword and value found by moving a pointer along the cut buffer, also when the keyword touches the cut |
| ConfigReader.ParseBlockLine | src/smartac_config.c:191-224 | one buffer line gives the keyword and value of the specification |
| ConfigReader.Fgets | src/smartac_config.c:188 | the next line or the part of it that fits, terminated; the rest of the buffer is kept |
| ConfigReader.SplitTopLine | src/smartac_config.c:336-362 | token, raw rest and value of a line outside blocks |
| ConfigReader.ParsePopularServers | src/smartac_config.c:437-487 | each nonempty name of the comma list is put in front of the list, in order |
| ConfigReader.BlockRound | src/smartac_config.c:188-251 | one round of the block loop takes one line and does what the specification does with it |
| ConfigReader.ReadBlockLines | src/smartac_config.c:182-252 | the fields of the block, and reading stops right behind the line that closes it |
| ConfigReader.ParseAcServer | src/smartac_config.c:171-282 | the server of the block is appended to the heap list; a block without a host adds none |
| ConfigReader.HandleOption | src/smartac_config.c:369-419 | the effect of one option on the heap, on the single settings and on the text still to read; exits exactly for unknown or misplaced options |
| ConfigReader.ConfigRead | src/smartac_config.c:315-429 | the heap lists and single settings after reading a file are those the specification assigns to its text, and the program exits exactly where it says so |
| ConfigText.DaemonStays | src/smartac_config.c:373-382 | once the daemon flag is set no file changes it or where the log goes; it is set by default (src/smartac_config.c:117), so the option never takes effect |
| ConfigPrinter.KeywordsDiffer | src/smartac_config.c:157-159 | no keyword hides another one, even when case is ignored |
| ConfigPrinter.FieldsOfLine | src/smartac_config.c:191-224 | keyword and value of a printed line are found for every layout: indentation, separator, trailing blanks, comment, CR LF or LF |
| ConfigPrinter.ReadPrintedBlock | src/smartac_config.c:182-252 | reading a printed block folds its items over the defaults, later ones overriding, and stops behind it |
| ConfigPrinter.BraceInLineEndsBlock | src/smartac_config.c:188 | a line with a closing brace ends the block and is lost, a line without goes on |
| ConfigPrinter.ReadPrintedBlocks | src/smartac_config.c:315-429 | printing any blocks and reading them appends exactly the servers they describe, in order |
| ConfigPrinter.ReadPrintedServers | src/smartac_config.c:171-282 | the round trip: printing a list of servers and reading the text appends exactly that list |
| ConfigPrinter.AddNamesReverses | src/smartac_config.c:437-487 | the popular list is the reverse of the nonempty names, followed by the old list |
| ConfigPrinter.PopularOfJoined | src/smartac_config.c:454-487 | joining names with commas and parsing them puts their reverse in front |
| ConfigOptions.FieldsOfBody | src/smartac_config.c:332-362 | of a line outside blocks the keyword, the raw rest and the value up to the first space are found, for any number of spaces, or a tab, behind the keyword |
| ConfigOptions.KeyIsKnown | src/smartac_config.c:150-165 | each of the fourteen keywords is known whatever the case of its letters |
| ConfigOptions.DebugLevelIsRead | src/smartac_config.c:409-411 | reading a line `DebugLevel` with a number, whatever text follows the number and whatever lines follow, sets the debug level to it and nothing else |
| ConfigOptions.CheckIntervalIsRead | src/smartac_config.c:406-408 | the same for `CheckInterval` and the check interval |
| ConfigOptions.IsHaveWifidogIsRead | src/smartac_config.c:386-388 | the same for `IsHaveWifidog` and the wifidog flag |
| ConfigOptions.NoNumberIsRead | src/smartac_config.c:386-411 | where no number starts the value of these three stays |
| ConfigOptions.GatewayAcIdIsRead | src/smartac_config.c:383-385 | reading a line `GatewayAcId` sets the id to the text up to the first space and nothing else |
| ConfigOptions.GatewayAcInterfaceIsRead | src/smartac_config.c:393-395 | the same for `GatewayAcInterface` |
| ConfigOptions.ArpTablePathIsRead | src/smartac_config.c:396-399 | the same for `ArpTablePath` |
| ConfigOptions.WifidogPathIsRead | src/smartac_config.c:389-392 | the same for `WifidogPath` |
| ConfigOptions.DaemonIsRead | src/smartac_config.c:373-382 | `Daemon` sets the flag, and where the log goes, exactly if the flag is not set yet and the value is yes, no, 1 or 0 |
| ConfigOptions.PopularServersAreRead | src/smartac_config.c:403-405 | `PopularServers` takes the whole rest of the line, also behind spaces, as the list; the names, blanks around them removed, go to the front one after the other |
| ConfigOptions.BlockKeyExits | src/smartac_config.c:412-418 | a keyword of server blocks outside a block ends the program |
| ConfigOptions.UnknownKeyExits | src/smartac_config.c:412-418 | so does a keyword that there is not |
| ConfigOptions.BareLineIsIgnored | src/smartac_config.c:336-364 | a line without a blank sets nothing |
| ConfigOptions.EmptyOptionIsIgnored | src/smartac_config.c:364 | nor does a keyword with only spaces behind it |
| ConfigOptions.CommentIsIgnored | src/smartac_config.c:367 | nor does a comment |
| ConfigOptions.HostnameIsRead | src/smartac_config.c:182-252 | in a block, a line `Hostname` in any layout sets the host name and nothing else |
| ConfigOptions.HttpPortIsRead | src/smartac_config.c:182-252 | the same for `HttpPort` and the number of its value |
| ConfigOptions.PingPathIsRead | src/smartac_config.c:182-252 | the same for `PingPath` |
| ConfigOptions.ResultPathIsRead | src/smartac_config.c:182-252 | the same for `ResultPath` |
| ConfigOptions.OtherKeyInBlockExits | src/smartac_config.c:182-252 | any other keyword in a block ends the program |
| ConfigOptions.NothingInBlock | src/smartac_config.c:191-209 | a blank line or a comment in a block sets nothing |
| ConfigOptions.KeywordAtCut | src/smartac_config.c:203-221 | a keyword that runs right up to the cut takes the text behind the cut as its value |
| ConfigOptions.LastLineIsKept | src/smartac_config.c:194-221 | a last line without a newline keeps the blanks behind its value |
| ConfigOptions.OpenBlockIsRead | src/smartac_config.c:188 | a block that ends with the file counts like one that a brace closes |
| ConfigOptions.BadBlockExits | src/smartac_config.c:239-246 | a line that no block may have ends the program, wherever it stands in a block |
| ConfigOptions.LongBlockLine | src/smartac_config.c:188 | a line of a block longer than the buffer is taken for several lines, cut after MAX_BUF - 2 bytes |
| ConfigOptions.LongLine | src/smartac_config.c:332 | one outside blocks after MAX_BUF - 1 bytes |
| ConfigOptions.DefaultsOfBlock | src/smartac_config.c:171-182 | a block with only a host name gets the default port and paths, one without a host name adds no server |
| Decimal.AtoiOfPrint | src/smartac_json_util.c:253 | atoi inverts printf for every integer |
| Decimal.NumberIsRead | src/smartac_config.c:386-411 | atoi and sscanf read a printed number behind blanks and a plus sign, and take a text that starts with no number for zero and for nothing |
| Decimal.PrintIsDecimal | src/smartac_json_util.c:377-380 | numbers are printed in decimal digits, with a minus sign if negative |
| Text.SplitJoin | src/smartac_json_util.c:66 | splitting what was joined gives the parts back |
| Json.ReadRendered | src/smartac_json_util.c:377-380 | the reference reader (RFC 8259, sections 2 to 7) recovers every printed value and leaves what follows it |
| Json.ReadDecimal | scripts/update_ac_information.sh:207 | a number with a fraction is read with all its digits (RFC 8259, section 6) |
| Json.ReadObject | src/smartac_json_util.c:481-528 | an object whose texts are each read as a member is read as the object of these members |
| ClientList.StrSep | src/smartac_json_util.c:66 | strsep delivers the pieces of the line one after the other |
| ClientList.SplitSegments | src/smartac_json_util.c:63-66 | the pointer array holds the pieces of the line and a null behind them; later entries keep what they had |
| ClientList.AddClient | src/smartac_json_util.c:68-98 | one more node with these fields at the end of the list; the first fills the node given |
| ClientList.AddTraffic | src/smartac_json_util.c:237-265 | the same for a traffic record |
| ClientList.NextClient | src/smartac_json_util.c:62-92 | the fields of the next line, an absent host name empty |
| ClientList.NextTraffic | src/smartac_json_util.c:231-263 | the fields of the next line, an absent last number zero |
| ClientList.InitClientList | src/smartac_json_util.c:41-106 | the linked list holds the records of the file in file order |
| ClientList.InitTrafficList | src/smartac_json_util.c:209-272 | the same for the traffic file |
| LeaseFile.LeasesAreRead | src/smartac_json_util.c:41-106 | of a file printed from leases, one a line, the daemon reads exactly the leases in order: hardware address, address and host name from the second, third and fourth field, counters zero |
| LeaseFile.ShortLeaseIsRead | src/smartac_json_util.c:81-92 | a line with three fields has no host name |
| ClientList.FindTrafficByIp | src/smartac_json_util.c:280-294 | the first record with this address, or null |
| ClientList.JoinOne | src/smartac_json_util.c:333-343 | the client gets the four numbers of the first record of its address, or keeps its own |
| ClientList.GetTrafficToClient | src/smartac_json_util.c:321-349 | every client is joined; no other field and no link changes |
| PingJson.EntryIsRendered | src/smartac_json_util.c:377-380 | the printed client is a rendered object with its seven members in order |
| PingJson.GetClientListJson | src/smartac_json_util.c:356-392 | the text is the member clientList with the rendered array of the clients |
| PingJson.ClosedList | src/smartac_json_util.c:385-387 | turning the last comma into a blank and closing the bracket gives a rendered array |
| DeviceInfo.LoadReads | scripts/update_ac_information.sh:207 | the load, a number with a fraction, is read with all its digits |
| DeviceInfo.DeviceIsRead | scripts/update_ac_information.sh:201-222 | the device file the script writes is one JSON member with the twelve values, for values that need no escape |
| DeviceInfo.DeviceIsReported | scripts/update_ac_information.sh:201-222 | under each of its twelve keys the member has the value the script put there |
| PingJson.PingIsRead | src/smartac_json_util.c:465-531 | for every device file and wifidog status the reader accepts, the text of a ping is one JSON object whose clientList is the list of clients |
| PingJson.ReadClients | src/smartac_json_util.c:356-392 | reading the printed array gives exactly the clients, in order |
| PingJson.PingReadsBack | src/smartac_json_util.c:465-531 | from the two files to the JSON text: the reader gets one object whose clientList is the leases in file order, each joined with its first traffic record |
| Ping.PrintedInOrder | src/smartac_json_util.c:481-528 | the prints, appended one after the other, are the members joined by commas and closed |
| Ping.BuildPingJsonData | src/smartac_json_util.c:465-531 | the text of a ping, with the device file and the status as they are; an error exactly if the device file cannot be read |
| Ping.BuildLists | src/smartac_ping.c:96-120 | both lists are built and joined in place |
| Ping.CollectPing | src/smartac_ping.c:96-127 | the JSON text of a ping, or nothing exactly if a file cannot be read |
| Ping.PingIsWellFramedExactly | src/smartac_ping.c:134-148 | the ping request has a correct Content-Length and the JSON text as its body if and only if it fits the request buffer |
| Ping.PingArrives | src/smartac_ping.c:96-148 | from the two files to the server: if the buffers hold the text, the body read out of the request is one JSON object with the joined clients |
| Ping.PingOfDeviceArrives | src/smartac_ping.c:96-148 | the same for every device file the script writes, with or without wifidog |
| Ping.PingHeadMeans | src/smartac_ping.c:134-148 | a reader finds in the head of a ping the ping path, the host, the agent, the content type and the length |
| LeaseFile.LeasesArrive | src/smartac_ping.c:96-148 | from the leases to the server: under the keys of the JSON object it reads it finds, for every lease in order, its addresses, host name and the traffic of its address, the gateway id, the wifidog flag and status, and the twelve values of the device |

## Left out

- Sockets, `select`, DNS, `popen`, fork and exec, signals, sleeping, daemonising: answers of the network and contents of files are inputs.
- Allocation failure: `safe_malloc` ends the program, so allocation succeeds. `free` is modelled only in `QueueSystem`.
- `destroy_queue` and `termination_handler`: the shutdown path, which frees the data of the sentinel that never had any.
- The command id (src/smartac_remotecmd.c:73): its arguments change the pointers they use, and it is only logged.
- What the wifidog says about itself: any text the reader of JSON accepts as a value, and no text that it refuses.
- DeviceInfo.DeviceIsRead: values that need no escape and are not missing; a command of the script that prints nothing leaves a gap that is no JSON.
- Command line, logging, version, interface discovery, `config_validate`, and what the single settings are used for.
- Other `accmd_*` scripts, the parameter check of `accmd_update_mac_fw_tables`, its messages, and how the rate files are made.
- `free(out_file)` on a pointer that is never set (src/smartac_remotecmd.c:93, 105, 122): undefined, not part of the model.
- The delimiter that `strsep` gets is one character without a terminating zero (src/smartac_json_util.c:66, 235): the model takes it for the string of one blank.
- Deleting the emptied chains UPLOAD and DOWNLOAD (scripts/update_ac_information.sh:71-72), and rules of others that mention DOWNLOAD.
- ConfigReader.ParsePopularServers: the list of popular servers is a sequence, not linked nodes, because the code only ever prepends to it and walks it.
- ConfigReader.TrimFrom: the code reads the character at the trimming position before it checks that the position is inside the line (src/smartac_config.c:204); the model checks first, with the same result.
- ResultQueue.Queued: outputs of at most MAX_CMD_OUT_BUF + 2 bytes; beyond that the read into the buffer (src/smartac_remotecmd.c:113) runs past its end, as ReadFitsExactly states.
- PostResult.ThreadPostResult: buffers of at most MAX_CMD_OUT_BUF bytes with a zero in them; others overrun the local copy (src/smartac_post_result.c:53), as PostCopyFitsExactly states.
- PostResult.RemoteCommandOfFramed: commands that fit the two command buffers of MAX_CMD_BUF bytes; the overflow of longer ones is not modelled.
- Pstr.HttpGet: a read delivers between 1 and MAX_BUF - 1 bytes, as `read` promises; the response is returned as text, not as the buffer that holds it.
- ClientList.InitClientList: a file that is not empty, with lines whose fields are the ones read and fit their members; an empty file leaves the first node unfilled, and on a shorter line the code reads entries an earlier line left behind (src/smartac_json_util.c:66).
- ClientList.InitTrafficList: the same for the traffic file; numbers fit their C types.
- PingJson.GetClientListJson: the text and its terminating zero fit the buffer of MAX_STRING_LEN bytes, which the code does not check; `Ping.BuildPingJsonData` asks the same of the whole text.
- Json.ReadRendered: strings without characters that would need an escape, which the code never writes; the reader knows no escapes and no null.
- MacTables.GrepIsExact: the listing is that of the chain in question; a rule of somebody else listed with a source address would be taken for one of this script's own.
- TrafficFile.FileIsRead: the listing and the counters do not change while the file is written, lines fit the buffer of the reader, and the shell's treatment of backslashes is not modelled.
- TrafficListing.LineShows: addresses in digits and dots with another digit than zero; the columns are those that `iptables -nvx` prints for a rule without interfaces, protocol and destination.
- TrafficPing.CountersArrive: the ARP table is not empty, the counters stay as they are from the update to the listing, and the rates are given, one of each kind for every counted address.
- MacTables.DeleteEffect: packet counters are not in the model, and anything but six upper-case pairs of hexadecimal digits is refused by iptables; the shell's treatment of backslashes and outer blanks in a line is not modelled.
- CountRules.CountChain.UpdateFwCountRule: the ARP table does not change while the script runs, and its counters only at insertion.
- LeaseFile.LeasesArrive: leases with five fields, of characters that need no escape, that fit their members and the line buffer.
- ConfigOptions.FieldsOfBody: lines of at most MAX_BUF - 1 bytes, ended by LF; behind a CR LF the CR stays in the value, as the code leaves it there.
- FailoverSteps.StepKeepsInv: popular servers, last addresses and sockets are not in the state machine; the answers of the network to one server are one of three replies.
