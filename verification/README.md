# Verified model of the hmxcms publish/subscribe broker and the two-semaphore stock

The broker is a single-threaded server. It keeps a linked list of (client, topic) subscriptions, a
linked "monitor" list of clients whose queue was found full, and sends to one bounded message queue
per client. When a queue is full the server drops the oldest message, appends the new one and counts;
when the message recorded at the first overflow comes out again and the count has reached the
configured queue length, the client is declared crashed and all its subscriptions are removed,
possibly in the middle of a broadcast over that same list. A second, small program runs a producer
and a consumer over a bounded stock with two semaphores.

`dafny verify dfyconfig.toml` checks everything. The files, from the bottom up:

- `Lists`, `Messages`: sequence operations and the message format.
- `Subscriptions`, `Monitor`: the two linked lists as classes over heap nodes, each proved to be a
  sequence; `Monitor` also holds the laws of "set the entry of one client".
- `Broker`, `Effects`: what one send and one incoming message do, as functions on values, with the laws
  of single operations, and what that means for every tag in the fields of messages and queues.
- `Server` (module `HmxServer`): the server class. Lists, queues and `send_count` are changed in
  place, broadcasts and deletions are loops over index arrays; every method is proved to compute the
  `Broker` function on the abstract state `Abs()`.
- `ClientView`, `CrashDetection`: one client as the server sees it, driven by sends, reads, and
  re-creation or removal of its queue in any order.
- `Network`: the whole system. A run is any sequence of labels; a server step is a single send or a
  single loop iteration, so clients act between two sends of one broadcast, may die at any point, and
  other programs may inject any message. A label that is not enabled changes nothing.
- `ServerLoop`: the server's receive loop against the steps of the system.
- `Runs`: crash detection, purging, closing, dying and conservation over whole runs.
- `Broadcast`, `CalmBroadcast`, `Reach`, `MissedSubscriber`, `Deliveries`: whom a broadcast reaches; the
  exact conditions on the state in which it starts for keeping to its plan and for reaching each
  addressee once in every interleaving; runs from the initial state in which it does not; and the
  message followed from the server's queue into those of its addressees.
- `Handshake`, `LostResponses`, `MisledCalls`: the verdicts of subscribe and unsubscribe, exactly when
  a response gets lost, and exactly which calls can return, in an undisturbed continuation, with
  something else than the answer to their own request.
- `ClientLib`, `LibraryCalls`: the client library's calls and receive loops, and their agreement with
  the waiting clients of the system.
- `ProducerConsumer`: the semaphore program, with every interleaving of check, wait, update and post.

How the levels meet: `CmsServer.MsgHandler` computes `Broker.Handle`; `Network.HandleIsServing` shows
that `Handle` is what the system's server steps add up to when nothing interferes;
`Network.RunProjects` shows that each client's queue and monitor entry depend only on what happened
to that client, so the per-client theorems hold in every run of the whole system.

Readings of the source that matter:

- `cms_server_send` falls off its end after a successful overwrite
  (`System_call/communication/demo_1/hmxcms/hmxcms_server.c:129-133`); the model takes CMS_SUCCESS, as
  the sibling version returns (`System_call/communication/hung/cms/hmxcms_server.c:156`). Only log
  lines depend on it.
- For a response the recorded payload has source and topic exchanged, and the crash test compares the
  recorded topic with the source of the removed message (lines 23 and 48). The model does the same;
  `CrashDetection.ResponsesNeverDetect` proves what follows from it.
- Message queues follow IEEE Std 1003.1-2017, System Interfaces chapter 3, `mq_send` and `mq_receive`.
  Client queues have capacity `cap` (10 in `lib/hmxcms_lib.c:28`); the server's own queue and the crash
  threshold have `maxMsg` (`mq_maxmsg` in `cms_server.conf`). The two are separate parameters; theorems
  that need them equal say so.
- `cms_server_send` is one atomic step with respect to client reads; the server is the only writer of
  client queues.

## Model

| member | source | states |
|---|---|---|
| Subscriptions.SubscriptionList.AddClient | System_call/communication/demo_1/hmxcms/lib/hmxcms_linkedlist.c:31-56 | the heap list stays acyclic and its sequence grows by exactly the new entry at the end |
| Subscriptions.SubscriptionList.DeleteClient | System_call/communication/demo_1/hmxcms/lib/hmxcms_linkedlist.c:59-100 | removes exactly the entry at the index; CMS_SUCCESS if and only if the index is inside the list, otherwise nothing changes; a negative index removes the second entry, except that with one entry the call is undefined |
| Subscriptions.SubscriptionList.GetIndexByTopic | System_call/communication/demo_1/hmxcms/lib/hmxcms_linkedlist.c:150-171 | the array receives all indices on the topic in order, the result is their number or CMS_ERROR |
| Subscriptions.SubscriptionList.GetIndexByName | System_call/communication/demo_1/hmxcms/lib/hmxcms_linkedlist.c:185-205 | the same for all entries of one client |
| Subscriptions.SubscriptionList.GetIndexByData | System_call/communication/demo_1/hmxcms/lib/hmxcms_linkedlist.c:207-228 | the first index of the pair; CMS_ERROR if and only if the pair is not in the list |
| Subscriptions.SubscriptionList.GetDataByIndex | System_call/communication/demo_1/hmxcms/lib/hmxcms_linkedlist.c:249-270 | the entry at the index, null if and only if the index is beyond the list; a negative index yields the first entry |
| Subscriptions.SubscriptionList.CountTopic | System_call/communication/demo_1/hmxcms/lib/hmxcms_linkedlist.c:313-339 | the number of distinct non-empty topics, with every table access in range |
| Lists.WhereIsExact | System_call/communication/demo_1/hmxcms/lib/hmxcms_linkedlist.c:150-205 | collected index arrays are strictly increasing, sound and complete |
| Lists.DeleteDownIsDrop | System_call/communication/demo_1/hmxcms/hmxcms_server.c:103-109 | deleting the collected indices from the highest to the lowest is the order-preserving filter |
| Monitor.MonitorList.Add | System_call/communication/demo_1/hmxcms/lib/hmxcms_monitor.c:13-40 | appends the payload to the list |
| Monitor.MonitorList.Delete | System_call/communication/demo_1/hmxcms/lib/hmxcms_monitor.c:42-87 | unlinks the first entry of the client and nothing else; CMS_SUCCESS if and only if there was one |
| Monitor.MonitorList.Get | System_call/communication/demo_1/hmxcms/lib/hmxcms_monitor.c:89-106 | returns the very payload object of the client's first entry, null if and only if there is none |
| Monitor.MonitorList.CountOverflow | System_call/communication/demo_1/hmxcms/hmxcms_server.c:69-71 | the increment through the pointer is seen in the list, in that entry only |
| Monitor.SetEntryFinds | System_call/communication/demo_1/hmxcms/lib/hmxcms_monitor.c:13-106 | add, change and delete keep at most one entry per client and are what the next lookup finds |
| Monitor.SetEntryKeepsOthers | System_call/communication/demo_1/hmxcms/lib/hmxcms_monitor.c:13-106 | the entries of other clients stay, in their order |
| Broker.SendIsLocal | System_call/communication/demo_1/hmxcms/hmxcms_server.c:17-159 | a send changes only the addressee's queue and monitor entry; sending a response never changes the subscription list, even on overflow |
| Broker.PurgeRemoves | System_call/communication/demo_1/hmxcms/hmxcms_server.c:217-230 | the index-wise deletion of one client removes exactly its entries and keeps the others in order |
| Broker.CrashPurges | System_call/communication/demo_1/hmxcms/hmxcms_server.c:94-118 | a declared crash leaves no subscription, no monitor entry and no queue name of the client |
| Broker.SubscribeTruth | System_call/communication/demo_1/hmxcms/hmxcms_server.c:184-211 | subscribe says SUCCESS if and only if the pair is in the list afterwards; refused if and only if the limit is reached and nobody is on the topic |
| Broker.SubscribeKeepsLimits | System_call/communication/demo_1/hmxcms/hmxcms_server.c:184-211 | subscribing keeps pairs unique and the number of topics within the limit |
| Broker.UnsubscribeAllTruth | System_call/communication/demo_1/hmxcms/hmxcms_server.c:217-238 | unsubscribe-all always says SUCCESS and leaves exactly the other clients' entries |
| Broker.UnsubscribeTopicTruth | System_call/communication/demo_1/hmxcms/hmxcms_server.c:239-257 | unsubscribe says SUCCESS if and only if the pair was there; the single deletion removes it completely and nothing else |
| Broker.AnswerIsTruthful | System_call/communication/demo_1/hmxcms/hmxcms_server.c:184-261 | each such request gets exactly one response, with a true verdict, and the list invariants survive |
| Effects.RequestChangesList | System_call/communication/demo_1/hmxcms/hmxcms_server.c:184-261 | for subscribe and unsubscribe, the whole list afterwards: the pair appended unless present or refused; exactly the entries asked for removed, the others in order |
| Effects.RequestIsAnswered | System_call/communication/demo_1/hmxcms/hmxcms_server.c:184-261 | the requester's queue, if it can be opened, ends in one response with its name as source, the topic asked for and the true verdict; nobody else's queue or monitor entry changes |
| Effects.MessageIsForwarded | System_call/communication/demo_1/hmxcms/hmxcms_server.c:309-316 | a message to one client ends up unchanged at the end of its queue; the list changes only if that client is declared crashed, by its entries |
| Effects.LogLevelIsAnswered | System_call/communication/demo_1/hmxcms/hmxcms_server.c:324-348 | a log-level request is answered with CMS_CONFIG_SUCCESS if and only if the level is one of the five, else with CMS_CONFIG_FAIL; no other configuration message is answered |
| Effects.BroadcastCarries | System_call/communication/demo_1/hmxcms/hmxcms_server.c:262-303 | a broadcast leaves its source's queue and monitor entry alone, and any other queue as it was or ending in that very message |
| Broker.SendStatus | System_call/communication/demo_1/hmxcms/hmxcms_server.c:123-159 | the status of a send for an absent, a free and a full queue, in message fields |
| HmxServer.CmsServer.NoteOverflow | System_call/communication/demo_1/hmxcms/hmxcms_server.c:60-71 | records the first overflow or counts a further one, changing nothing else of the server |
| HmxServer.CmsServer.Overwrite | System_call/communication/demo_1/hmxcms/hmxcms_server.c:72-86 | rotates a full queue by one message and keeps the removed one in `oldest` |
| HmxServer.CmsServer.DeleteIndices | System_call/communication/demo_1/hmxcms/hmxcms_server.c:103-109 | the downward loop deletes at all collected indices and every deletion succeeds |
| HmxServer.CmsServer.FullQueueHandler | System_call/communication/demo_1/hmxcms/hmxcms_server.c:17-121 | refines `Broker.Send` on a full queue; it fails if and only if the client was monitored, its count is up, and the message taken out has the data and source on record, and for its topic, or when a response is sent its source, the topic on record |
| HmxServer.CmsServer.ServerSend | System_call/communication/demo_1/hmxcms/hmxcms_server.c:123-159 | refines `Broker.Send` for a full, a free and an absent queue; always an error for an absent one, never for a free one |
| HmxServer.CmsServer.HandleSendAll | System_call/communication/demo_1/hmxcms/hmxcms_server.c:263-278 | the loop over shrinking list positions refines the broadcast of this message; `Deliveries.HandleToAll` says what it leaves in each queue |
| HmxServer.CmsServer.CastIndices | System_call/communication/demo_1/hmxcms/hmxcms_server.c:286-300 | the loop over indices collected before refines the broadcast of this message; `Deliveries.HandleToTopic` says what it leaves in each queue |
| HmxServer.CmsServer.MsgHandler | System_call/communication/demo_1/hmxcms/hmxcms_server.c:171-352 | refines `Broker.Handle` for every message, with the heap invariants kept; what that is in the fields of the message is said by `Effects` for each tag |
| HmxServer.CmsServer.Start | System_call/communication/demo_1/hmxcms/hmxcms_server.c:397-426 | the receive loop computes `Serving` on state and stop flag, with nobody else touching the queues between two messages |
| ServerLoop.LoopIsServing | System_call/communication/demo_1/hmxcms/hmxcms_server.c:397-426 | what the loop does to lists and queues is what the steps of the system do with exactly the messages received before it stops, in order |
| HmxServer.StopsAfterFourFailures | System_call/communication/demo_1/hmxcms/hmxcms_server.c:405-424 | the server stops if and only if four receives failed with no message in between; an empty queue neither counts nor clears |
| Network.RunsKeepInv | System_call/communication/demo_1/hmxcms/hmxcms_server.c:171-352 | in every reachable state no pair is subscribed twice, the monitor has one entry per client, topics are within `max_topic` |
| Network.RunProjects | System_call/communication/demo_1/hmxcms/hmxcms_server.c:17-159 | in every run a client's queue and monitor entry are determined by the sends to it and its own acts alone |
| Network.HandleIsServing | System_call/communication/demo_1/hmxcms/hmxcms_server.c:171-352 | undisturbed, the single steps of the system add up to the handler |
| ClientView.QueueIsBounded | System_call/communication/demo_1/hmxcms/hmxcms_server.c:72-86 | after any history a queue holds at most its capacity, and a send that finds it full leaves it full |
| ClientView.MessagesAreConserved | System_call/communication/demo_1/hmxcms/hmxcms_server.c:123-159 | what was accepted is, in order, what was read or overwritten followed by what is queued |
| Runs.RunConservesMessages | System_call/communication/demo_1/hmxcms/hmxcms_server.c:72-159 | the same in every run of the system |
| CrashDetection.EntryHasOrigin | System_call/communication/demo_1/hmxcms/hmxcms_server.c:60-92 | position and counting: an entry with count s stands for s + 1 overflows in immediate succession, with the recorded message s places from the end of the queue or already out |
| Runs.EntriesHaveOrigins | System_call/communication/demo_1/hmxcms/hmxcms_server.c:17-159 | the same for every entry in every reachable state of the system |
| CrashDetection.CrashIsSound | System_call/communication/demo_1/hmxcms/hmxcms_server.c:58-118 | a declared crash is preceded, since the entry was made, by nothing but at least `max_msg` sends that found the queue full |
| Runs.DeclaredCrashIsSound | System_call/communication/demo_1/hmxcms/hmxcms_server.c:17-159 | soundness over every interleaving of the whole system |
| CrashDetection.FirstGivenUp | System_call/communication/demo_1/hmxcms/hmxcms_server.c:20-118 | for any configuration, tags and contents, in message fields: exactly at which send a silent client is first given up, whether it is purged, and the queue left |
| CrashDetection.ResponseAfterRequests | System_call/communication/demo_1/hmxcms/hmxcms_server.c:47-57 | after a first overflow by a request, a response gives the client up if and only if the count is up and the message taken out has that request's data and source, and the source was named like the request's topic; it is never purged |
| CrashDetection.CrashIsExact | System_call/communication/demo_1/hmxcms/hmxcms_server.c:58-118 | with equal lengths K a silent client is declared crashed at exactly the (K+1)-th overflow, and the removed message is the recorded one |
| CrashDetection.DistinctTextsCrash | System_call/communication/demo_1/hmxcms/hmxcms_server.c:88-92 | for distinct texts detection happens if and only if `max_msg` is at most the queue capacity |
| CrashDetection.ResponseFirstNeverDetects | System_call/communication/demo_1/hmxcms/hmxcms_server.c:20-118 | if the first overflow was a response, `max_msg` is at least the queue capacity and no message comes from a client named like that response's topic, the silent client is never given up, whatever follows |
| CrashDetection.ResponsesNeverDetect | System_call/communication/demo_1/hmxcms/hmxcms_server.c:20-57 | so for a silent client sent only its own responses, if `max_msg` is at least the queue capacity and no topic is the client's name |
| Runs.ResponsesNameTheirClient | System_call/communication/demo_1/hmxcms/hmxcms_server.c:184-348 | in every run all responses sent to a client have its name as their source |
| Runs.SilentOnResponses | System_call/communication/demo_1/hmxcms/hmxcms_server.c:20-57 | so in every run a full, unmonitored client to which nothing but responses happens is not given up, under the conditions on lengths and topics |
| Runs.SilentClientIsDeclared | System_call/communication/demo_1/hmxcms/hmxcms_server.c:58-118 | completeness in every run of the system, whatever other clients do meanwhile |
| Runs.DeclaredCrashPurges | System_call/communication/demo_1/hmxcms/hmxcms_server.c:94-118 | after the declaring step exactly the crashed client's subscriptions are gone |
| Runs.WhySubscriptionsEnd | System_call/communication/demo_1/hmxcms/hmxcms_server.c:171-320 | a subscription leaves the list only by its own client's request or by a crash purge |
| Runs.SubscriptionsAreKept | System_call/communication/demo_1/hmxcms/hmxcms_server.c:17-320 | over whole runs: otherwise it is lost only after more than `max_msg` consecutive overflows without a read |
| Runs.NothingReachesTheClosed | System_call/communication/demo_1/hmxcms/lib/hmxcms_lib.c:50-56 | a client that has closed receives nothing in any continuation until it is started again |
| Runs.KillIsUnnoticed | System_call/communication/demo_1/hmxcms/hmxcms_server.c:17-159 | a killed client looks to server and clients like one that does nothing, in every continuation |
| Broadcast.AllMissesNobody | System_call/communication/demo_1/hmxcms/hmxcms_server.c:263-278 | with purges and client reads during the loop, every survivor is sent to or is the source, which gets nothing; the unvisited survivors are a prefix |
| Broadcast.AllReachesEverybody | System_call/communication/demo_1/hmxcms/hmxcms_server.c:263-278 | a finished "ALL" broadcast has sent to exactly the clients in the list but the source, whatever was purged and whatever clients did meanwhile |
| Deliveries.PostedIsSent | System_call/communication/demo_1/hmxcms/hmxcms_server.c:262-303 | from the message at the head of the server's queue until the loop ends, whatever clients do meanwhile, every send is of that very message and none goes to its source |
| Deliveries.PostedToAll | System_call/communication/demo_1/hmxcms/hmxcms_server.c:263-278 | when the loop of an "ALL" message ends, that message was sent to exactly the clients in the list other than its source |
| Deliveries.HandleToAll | System_call/communication/demo_1/hmxcms/hmxcms_server.c:263-278 | undisturbed, each of their queues that can be opened ends in the message, and nothing changed for anybody else |
| Broadcast.VisitsAreIntended | System_call/communication/demo_1/hmxcms/hmxcms_server.c:279-301 | in one run each iteration finds the entry whose index was collected if and only if no purge removes an entry at or below the next index |
| Broadcast.SteadyReachesEachOnce | System_call/communication/demo_1/hmxcms/hmxcms_server.c:279-301 | in such a run exactly one send to each subscriber but the source, and to nobody else |
| CalmBroadcast.CalmIffAlwaysSteady | System_call/communication/demo_1/hmxcms/hmxcms_server.c:279-301 | a condition on the list, queues and monitor entries at the start of the loop holds if and only if every interleaving keeps to the plan |
| Reach.EachOnceIff | System_call/communication/demo_1/hmxcms/hmxcms_server.c:262-303 | every interleaving of a broadcast, to a topic or to "ALL", sends exactly once to each addressee but the source and to nobody else, if and only if every walk over the starting list does that purges, when they are sent to, any choice of the clients that are one overflow from being declared crashed |
| Reach.ReachesEachOnceIff | System_call/communication/demo_1/hmxcms/hmxcms_server.c:262-303 | the same for every broadcast that starts in any run from the initial state, with no assumption on the queues |
| Reach.AllEachOnceIff | System_call/communication/demo_1/hmxcms/hmxcms_server.c:263-278 | in closed form for "ALL": exactly once to everybody but the source in every interleaving if and only if each of them has one entry in the list |
| Reach.TopicReachesEachOnce | System_call/communication/demo_1/hmxcms/hmxcms_server.c:279-301 | a topic broadcast that meets the simpler condition for keeping to its plan meets this one |
| Deliveries.PostedToTopic | System_call/communication/demo_1/hmxcms/hmxcms_server.c:279-301 | for a topic message that meets it: sent to exactly the topic's subscribers other than its source |
| Deliveries.HandleToTopic | System_call/communication/demo_1/hmxcms/hmxcms_server.c:279-301 | undisturbed, each of their queues that can be opened ends in the message, and nothing changed for anybody else |
| MissedSubscriber.SubscriberCanBeMissed | System_call/communication/demo_1/hmxcms/hmxcms_server.c:281-300 | where the condition fails, a subscriber is skipped and the message does not enter its queue |
| MissedSubscriber.MissedSubscriberExists | System_call/communication/demo_1/hmxcms/hmxcms_server.c:281-300 | for every configuration with room for the two topics (a limit that is not zero, and not one unless the other topic is empty, which is not counted), a run from the initial state after which a finished broadcast misses a live subscriber whose queue is open and empty |
| MissedSubscriber.ShiftCanBeHarmless | System_call/communication/demo_1/hmxcms/hmxcms_server.c:281-300 | keeping to the plan is not needed: for as many configurations, a run from the initial state with a broadcast that leaves its plan and still sends exactly once to each subscriber |
| Handshake.HandshakeIsSafe | System_call/communication/demo_1/hmxcms/lib/hmxcms_lib.c:114-187 | in every run undisturbed for a client, whatever happens to others, it has at most one unanswered request, and each verdict it gets is the true answer to that very request |
| Handshake.SubscribeVerdictIsTrue | System_call/communication/demo_1/hmxcms/lib/hmxcms_lib.c:114-151 | subscribe returns CMS_SUCCESS if and only if the pair was in the server's list at the step that answered it |
| Handshake.ResponsesBelong | System_call/communication/demo_1/hmxcms/hmxcms_server.c:184-261 | in every run undisturbed for a client, each response in its queue while it waits has its name, its request's topic and the true verdict on that request |
| Handshake.KilledClientIsMisled | System_call/communication/demo_1/hmxcms/lib/hmxcms_lib.c:22-48 | killing a client inside subscribe and starting it again breaks this: a run in which SUCCESS is returned for a topic not subscribed |
| Handshake.ForgedRequestMisleads | System_call/communication/demo_1/hmxcms/hmxcms_server.c:322-348 | so does another program's log-level request in its name: a run in which FAIL is returned for a topic subscribed |
| MisledCalls.MisledIff | System_call/communication/demo_1/hmxcms/lib/hmxcms_lib.c:114-187 | after any run at all, a call can return, in a continuation undisturbed for its client, before its request is taken or otherwise than with the truthful answer to it, if and only if, when it asks, a response waits in the client's queue or an older message of its name is still to be answered into an open queue |
| MisledCalls.EarlyReturnIff | System_call/communication/demo_1/hmxcms/lib/hmxcms_lib.c:114-187 | the same condition is exact for returning before the server takes the request in any continuation, disturbed or not |
| MisledCalls.ClearCallIsTold | System_call/communication/demo_1/hmxcms/lib/hmxcms_lib.c:114-187 | a call that cannot be misled gets the truthful answer to its own request in every undisturbed continuation, or with an unnamed queue never returns |
| MisledCalls.RestartedIsMisleadable | System_call/communication/demo_1/hmxcms/lib/hmxcms_lib.c:22-48 | starting a client drops the responses left in its queue but not the answers still to come |
| MisledCalls.CanStillReturn | System_call/communication/demo_1/hmxcms/lib/hmxcms_lib.c:114-187 | a waiting call returns in some undisturbed continuation if and only if a response is in its queue, or its request is still to be answered and the queue can be opened |
| LostResponses.StrandingStep | System_call/communication/demo_1/hmxcms/hmxcms_server.c:72-86 | which single steps leave a waiting client without request and response: answering it into a queue without a name, or overwriting a full queue whose oldest message is its response |
| LostResponses.StrandedIffLost | System_call/communication/demo_1/hmxcms/hmxcms_server.c:72-144 | over runs undisturbed for the client: it is stranded at the end if and only if such a step happened |
| LostResponses.LostResponseStrands | System_call/communication/demo_1/hmxcms/lib/hmxcms_lib.c:132-147 | a stranded call returns in no continuation of the run |
| LostResponses.CutOffCallHangs | System_call/communication/demo_1/hmxcms/lib/hmxcms_lib.c:132-147 | a call waiting on a queue without a name and without a response never returns, whatever anybody sends |
| LostResponses.PurgedCallHangs | System_call/communication/demo_1/hmxcms/hmxcms_server.c:94-118 | a client declared crashed while its request is unanswered waits for ever |
| LostResponses.ResponseCanBeLost | System_call/communication/demo_1/hmxcms/lib/hmxcms_lib.c:114-147 | for every configuration, a run of library calls only that strands a client in subscribe |
| ClientLib.CmsClient.Send | System_call/communication/demo_1/hmxcms/lib/hmxcms_lib.c:88-112 | which code is returned when, and that the request is posted exactly on success |
| ClientLib.CmsClient.SendTo | System_call/communication/demo_1/hmxcms/lib/hmxcms_lib.c:58-86 | the same for a message to one client |
| ClientLib.CmsClient.Receive | System_call/communication/demo_1/hmxcms/lib/hmxcms_lib.c:190-243 | skips empty receives and returns the next message; on another error the buffer is unchanged and the report is posted if possible, CMS_FAIL if and only if the server is up and did not take it, CMS_ERROR otherwise and before initialisation |
| ClientLib.ReportsInOrder | System_call/communication/demo_1/hmxcms/lib/hmxcms_lib.c:217-237 | the reports of a sequence of receives: one response-tagged failure report, in order, for each failed receive whose report could be sent |
| ClientLib.CmsClient.AwaitResponse | System_call/communication/demo_1/hmxcms/lib/hmxcms_lib.c:131-147 | the nested receive loops compute the outcome function, and post exactly the reports due |
| ClientLib.ReturnsAtFirstStop | System_call/communication/demo_1/hmxcms/lib/hmxcms_lib.c:131-183 | for every sequence of receives: the call returns at the first response, the first CMS_ERROR for subscribe, or a failed receive while the uninitialised buffer looks like a response |
| ClientLib.OutcomeOfFirstStop | System_call/communication/demo_1/hmxcms/lib/hmxcms_lib.c:131-183 | with the verdict of that response, CMS_ERROR, or the verdict of the buffer; so unsubscribe ignores failed receives, and subscribe those whose report could not be sent |
| LibraryCalls.CallMatchesSystem | System_call/communication/demo_1/hmxcms/lib/hmxcms_lib.c:131-147 | on what a waiting client reads in a run, the library call returns SUCCESS or FAIL exactly when the system records that return |
| ClientLib.CmsClient.SubscribeTopic | System_call/communication/demo_1/hmxcms/lib/hmxcms_lib.c:114-151 | posts the request, then exactly the reports due while waiting, and behaves as the receive loop; CMS_ERROR with nothing posted otherwise |
| ClientLib.CmsClient.UnsubscribeTopic | System_call/communication/demo_1/hmxcms/lib/hmxcms_lib.c:153-187 | the same for unsubscribe |
| ProducerConsumer.StockStaysInBounds | Proces/Thread/semaphone/exm_semaphone.c:9-43 | in every reachable state stock = produced - consumed, within 0 and the limit, and a waiting thread has enough tokens coming |
| ProducerConsumer.NoDeadlock | Proces/Thread/semaphone/exm_semaphone.c:9-43 | some thread can move if and only if not both are finished |
| ProducerConsumer.EveryRunFinishes | Proces/Thread/semaphone/exm_semaphone.c:11-42 | every run has at most 10n + 6 steps and can end only with n produced, n consumed and an empty stock |
| ProducerConsumer.Shop.RunBoth | Proces/Thread/semaphone/exm_semaphone.c:9-43 | both threads in place under an arbitrary scheduler: never stuck, terminating, stock empty at the end |

## Left out

- DeleteClient: a negative index on a list of one entry, where the C code dereferences null; no call site supplies a negative index.
- Start: in the class no client reads, creates or removes a queue between two messages; every such interleaving is covered by the system of `Network`.
- CountOverflow: `send_count` is unbounded, a C `int` would wrap after 2^31 overflows; with requests it is reset at `max_msg`.
- Names, topics and data are strings of any length; the 64-byte buffers are not modelled. Nor are allocation failures, leaked descriptors and freed memory.
- A client named like the server's own queue, to which a forwarded message would come back.
- The case of a message larger than the queue's message size, which cannot arise with one message type, and the successful resend after another error.
- Log output, log levels, printing, signals, sleeping, configuration parsing, process start and stop.
- Fairness: that the schedule in which a waiting client's call returns, which `CanStillReturn` shows to exist, is the one taken.
- The older copies of the broker in the repository, and the fork, pipe, signal, shared-memory and other thread demonstrations.
- `stock_count++` and `stock_count--` are single steps; the data race between them is not modelled.
