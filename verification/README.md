# Apex middleware and track stitcher: a verified model

The repository runs a sensor-message middleware (Apex) between edge nodes, fusion nodes and parent
systems, and stitches tracks. This project models its stateful core in Dafny and proves what its
parts promise, for all inputs, runs and interleavings.

* **Routing** (`ApexTypes`, `ApexRouting`, `ApexLogs`, `ApexConnections`, `ApexRuns`, `ApexTheorems`,
  `ApexOutcomes`).
  `ApexConnections` holds the connection classes with their fields; each handler is proved to do to
  its objects what a function of `ApexRouting` says. `ApexRuns` makes those functions the steps of a
  transition system (connections open, receive and close in any order, one handler at a time) and
  proves one invariant of every run. `ApexTheorems` draws the conclusions: peers that joined late and
  early agree on every node, no log ever breaks the message grammar, a node belongs to the child that
  registered last, a message is handed to exactly the writers it is counted for. `ApexOutcomes` says of
  every message, in terms of the events alone, with what error it ends, who is told what, and at what time
  it is dated. The parent handler is the one that the image build patches in.
* **Database** (`Saving`, `SavingTheorems`, `SavedRuns`). The saver, its rollover to a new database and
  the thread that feeds it in batches, with the rows proved to point to what the routing state holds.
* **Stitching** (`Stitching`). Building chains by list insertion, merging them pairwise, joining tracks.
* **Framing and sending** (`Framing`, `MessageBuilder`, `Receiving`, `BufferedSending`). Four
  implementations of the framing of section 4.2 of BSI Flex 335 v2 or of a delimiter, and the send
  buffer shared by two tasks.
* **Merging** (`Merging`, `MergedTrees`). The in-place merge of a row tree and the item tree that mirrors
  it, and what it leaves under every path of keys, also when it raises.
* **Scanners** (`JsonScanning`, `JsonPrinted`, `XmlScanning`, `XmlLines`, `XmlPrinted`). The two syntax
  highlighters, and what they do to printed JSON and XML.
* **Clocks and replay** (`NtpVoting`, `Replaying`, `ReplayedRuns`). The median vote over NTP servers, and
  the state with which a replay starts, compared with what the running server tells a peer that joins.
* `Sequences`, `Spans` and `Wrappers` hold what several of these use.

Verify with `dafny verify dfyconfig.toml`.

## Where the code does not do what its documentation says

For each of these there is an input, and an exact condition over all inputs.

* `ModelMerger` says its two trees are "always" in sync. They stay in sync exactly when the rows that
  are kept keep their number of columns (`Merging.MirrorsExactlyWhenFits`; for instance not when a row
  gets a second column, `Merging.NewColumnIsLost`). Out of sync, a later update raises exactly when a kept row
  changes in a column for which it has no item (`Merging.RaisesExactlyWhen`, `Merging.NewColumnRaises`),
  and stops there (`MergedTrees.StopsAtFirstBreak`). Flags
  of kept rows are not updated; only the keys, columns and children become those of the new data.
* The C# message builder delivers the frames of the plain splitting, and does not raise, exactly when each
  has at least one byte and less than 2^31 - 4 and the rest announces no length from 2^31 - 4 on and below
  2^31 (`MessageBuilder.AgreesExactlyWhen`). It is stuck for good exactly at a header that announces 0, or
  2^31 - 4 or more. At 0, which the framing allows, it waits in silence (`MessageBuilder.EmptyFrameStops`);
  from 2^31 - 4 on it raises with the first byte after the header, before the frame is there
  (`MessageBuilder.LongFrameRaises`); from 2^31 on the length reads as negative and it waits in silence
  again (`MessageBuilder.LongerFrameStalls`).
* The JSON scanner takes a quote after a backslash for an escaped one, so that a printed string that
  ends in a backslash is scanned past its end (`JsonPrinted.StringScannedExactlyWhen`; the object whose only
  key is a backslash, `JsonPrinted.BackslashRunsOn`). A printed document is painted as it should be exactly when
  each such string is the last of its line (`JsonPrinted.ValueHighlightedExactlyWhen`).
* The replay is to start with the most recent messages of each node. It takes those with the greatest ids, which
  are not those the server has acted on last when two connections report one node, since messages are numbered
  as they arrive and handled when they have been parsed (`ReplayedRuns.SeedIsReplayedExactlyWhen`,
  `ReplayedRuns.OvertakenRegistration`); and it keeps statuses from before a registration
  (`ReplayedRuns.InOrderSeedExactlyWhen`).
* The vendored parent handler was meant not to return a message to its sender; it does, exactly for
  forward-all parents (`ApexTheorems.VendoredParentEchoes`; the first connection of a server,
  `ApexTheorems.FirstParentHearsItself`). The patched one does not.
* The class comments of the parent and recorder connections speak of ignored or unexpected messages;
  both forward them, and the model does too.

## Model

| member | source | states |
|---|---|---|
| `ApexTheorems.LateJoinersAgree` | dstl/Apex-SAPIENT-Middleware/sapient_apex_server/connection.py:432-446 | In every reachable state, every connected peer and forward-all parent, however late it joined, has been told the same registration, New status and Unchanged status of each registered node: those in the shared data. |
| `ApexTheorems.EveryLogObeysGrammar` | dstl/Apex-SAPIENT-Middleware/sapient_apex_server/connection.py:251-375 | In everything any writer was ever sent, a child's message about a node follows a registration of that node, and an Unchanged status follows a New one of the same system with no registration in between, across hijacks, re-registrations and late joins. |
| `ApexRuns.StepKeepsInv` | dstl/Apex-SAPIENT-Middleware/sapient_apex_server/connection.py:193-614 | One event on any connection keeps the invariant: lists hold exactly the open connections of their role, owners are open children registered as their node, every subscriber is informed, every log obeys the grammar. |
| `ApexRuns.Reachable` | dstl/Apex-SAPIENT-Middleware/sapient_apex_server/connection.py:625-658 | The invariant holds after any sequence of events from the start of the server. |
| `ApexRuns.PublishStep` | dstl/Apex-SAPIENT-Middleware/sapient_apex_server/connection.py:284-297 | Handing a child's message once to every subscriber, and changing its node's entry as the message says, keeps all subscribers informed and all logs grammatical. |
| `ApexRuns.JoinStep` | dstl/Apex-SAPIENT-Middleware/sapient_apex_server/connection.py:432-446 | A new subscriber that is replayed the registered nodes knows what the others know, and its log obeys the grammar. |
| `ApexRuns.ReplayMany` | dstl/Apex-SAPIENT-Middleware/sapient_apex_server/connection.py:548-563 | Replaying nodes in any order appends legally to any legal log and sets the reader's view of exactly those nodes to the stored one. |
| `ApexRuns.ChildMessageShape` | dstl/Apex-SAPIENT-Middleware/sapient_apex_server/connection.py:377-400 | A child's message either fails, leaving the shared data and the connection alone but for an error reply, or is told to all peers and forward-all parents and acknowledged if it is a registration. |
| `ApexRuns.ChildTable` | dstl/Apex-SAPIENT-Middleware/sapient_apex_server/connection.py:251-375 | In a reachable state, a message of a child that ends without error was told and acknowledged, and changed the entry of one node as it changes the view of a reader. |
| `ApexRuns.ChildFirstTable` | dstl/Apex-SAPIENT-Middleware/sapient_apex_server/connection.py:251-297 | A first registration changes the entry of one node only, gives it to the sender, and changes it as a reader of the log changes its view. |
| `ApexRuns.ChildOtherTable` | dstl/Apex-SAPIENT-Middleware/sapient_apex_server/connection.py:299-375 | Any later message that is accepted is legal for a reader who knows the entry, and changes the entry as it changes the reader's view. |
| `ApexLogs.ViewWitness` | dstl/Apex-SAPIENT-Middleware/sapient_apex_server/connection.py:321-362 | What a reader's view of a node says has been said in the log: the registration, and the New status that no later registration or New status has replaced. |
| `ApexLogs.GrammarSnoc` | dstl/Apex-SAPIENT-Middleware/sapient_apex_server/connection.py:344-362 | A message that is legal for a reader's view may follow the log, whatever came before. |
| `ApexTheorems.ChildAcceptedExactlyWhen` | dstl/Apex-SAPIENT-Middleware/sapient_apex_server/connection.py:251-375 | In every run a child's first message is accepted if and only if it is a registration with a node id; a later one if and only if the child is the latest registrant of the node it names, an Unchanged status repeats the system of the New one the subscribers were told, and a detection is not below the threshold. |
| `ApexTheorems.PeerAcceptedExactlyWhen` | dstl/Apex-SAPIENT-Middleware/sapient_apex_server/connection.py:448-508 | In every run a peer's message is accepted if and only if it keeps to the id the peer registered as, its destination has an open owner, and a registration is allowed and names a node. |
| `ApexTheorems.OwnerStep` | dstl/Apex-SAPIENT-Middleware/sapient_apex_server/connection.py:281-288 | The owner of a node changes only when a child completes a first registration as it, or when the owner closes. |
| `ApexTheorems.OwnerIsLatestRegistrant` | dstl/Apex-SAPIENT-Middleware/sapient_apex_server/connection.py:402-409 | After every run a node belongs to the child that last completed a first registration as it while that child is open, and is otherwise not registered. |
| `ApexTheorems.OneNodeEach` | dstl/Apex-SAPIENT-Middleware/sapient_apex_server/connection.py:251-288 | No child owns two nodes. |
| `ApexTheorems.HijackedForGood` | dstl/Apex-SAPIENT-Middleware/sapient_apex_server/connection.py:308-311 | A child that lost its node never owns a node again in any continuation, and its closing takes no node away. |
| `ApexTheorems.NodeIdKept` | dstl/Apex-SAPIENT-Middleware/sapient_apex_server/connection.py:299-311 | Once a child has registered, no event but its closing changes the node id of its connection. |
| `ApexTheorems.ClocksAgree` | dstl/Apex-SAPIENT-Middleware/sapient_apex_server/connection.py:266-288 | In every run the offset a child applies to its messages and the one kept for messages to its node cancel but for the allowed delay. |
| `ApexTheorems.TimesComeBack` | dstl/Apex-SAPIENT-Middleware/sapient_apex_server/connection.py:174-190 | A time the owner stamps, shifted on the way up and shifted again on the way back, is the same time less 100 ms. |
| `ApexTheorems.FanOutConservation` | dstl/Apex-SAPIENT-Middleware/sapient_apex_server/connection.py:88-102 | For every message in every reachable state: the forwarded count is the number of writers it was handed to; these are the recipients of its sender's role, once each, or nobody if it ends in error; all are told the same content; the sender gets nothing but an acknowledgement of a registration and, exactly for a noisy error, an error reply. |
| `ApexTheorems.RecipientsDistinct` | services/apex/patches/route_parent_to_child.py:51-77 | No writer is twice among the recipients of a message, and its sender is not among them. |
| `ApexTheorems.ChildHands` | dstl/Apex-SAPIENT-Middleware/sapient_apex_server/connection.py:369-400 | Who is handed and told what by a child's message, counted. |
| `ApexTheorems.PeerHands` | dstl/Apex-SAPIENT-Middleware/sapient_apex_server/connection.py:472-522 | Who is handed and told what by a peer's message: with a destination its owner and the forward-all parents, without one all parents. |
| `ApexTheorems.ParentHands` | services/apex/patches/route_parent_to_child.py:51-77 | Who is handed and told what by a parent's message after the patch: the destination's owner, the peers and the other forward-all parents. |
| `ApexTheorems.PeerReachesOwnerOnly` | dstl/Apex-SAPIENT-Middleware/sapient_apex_server/connection.py:490-508 | Of all children, an accepted peer message with a destination reaches the latest registrant of that node and no other, once. |
| `ApexTheorems.VendoredParentEchoes` | dstl/Apex-SAPIENT-Middleware/sapient_apex_server/connection.py:567-583 | Before the patch, a message without error comes back to its sender exactly when that is a forward-all parent. |
| `ApexTheorems.FirstParentHearsItself` | dstl/Apex-SAPIENT-Middleware/sapient_apex_server/connection.py:567-583 | An input: the message of the first connection of a server, a forward-all parent, is returned to it by the vendored handler and by the patched one is not. |
| `ApexOutcomes.RegistrationRemembered` | dstl/Apex-SAPIENT-Middleware/sapient_apex_server/connection.py:264-279 | In every run a child's connection holds the node id of its first registration and the offset that brings it to 100 ms before its arrival, and nothing before there is one. |
| `ApexOutcomes.NameRemembered` | dstl/Apex-SAPIENT-Middleware/sapient_apex_server/connection.py:448-470 | In every run a peer's connection holds the name the peer first registered as. |
| `ApexOutcomes.LatestRegistrantIs` | dstl/Apex-SAPIENT-Middleware/sapient_apex_server/connection.py:281-288 | Which child last completed a first registration as a node depends on the messages received only: the last one whose first registration named it. |
| `ApexOutcomes.RefusedExactlyWhen` | dstl/Apex-SAPIENT-Middleware/sapient_apex_server/connection.py:251-375 | In every run the error a message ends with is that of a table over the message, the first registration of its sender and the owner of its node, severity and reason: what the parser found stays; noisy for another node id, an Unchanged status out of turn, a registration a peer may not make and an unknown destination; silent for a child that is not registered or was hijacked; fatal without a node id or content; silent or not stored, as configured, below the threshold. |
| `ApexOutcomes.DatedAs` | dstl/Apex-SAPIENT-Middleware/sapient_apex_server/connection.py:174-190 | In every run an accepted message is as it arrived but for its date, which is moved, with adjustment on, by how late the first registration of its child came, less 100 ms; or, from a peer to a node, back by how late the registration of the node's owner came; and otherwise by nothing. |
| `ApexOutcomes.MessageHandled` | dstl/Apex-SAPIENT-Middleware/sapient_apex_server/connection.py:88-171 | For every message that an open connection receives after any events: its recipients are handed it once each, with that date and else as it arrived, or nobody if the table has an error; the sender gets an acknowledgement or an error reply exactly when one is due; and its record ends with that content, that error and that count. |
| `ApexOutcomes.TimesComeBackSent` | dstl/Apex-SAPIENT-Middleware/sapient_apex_server/connection.py:490-502 | An accepted message of a child is told with a date; whenever later a peer sends a message of that date to the node the child still owns, and it is accepted, the child is sent it with its own date back, less 100 ms. |
| `ApexOutcomes.JoinersAreIntroduced` | dstl/Apex-SAPIENT-Middleware/sapient_apex_server/connection.py:432-446 | A peer or forward-all parent that connects is told of each registered node its registration and, if any, its New and its Unchanged status, once each and in that order, and nothing else; no other opening and no closing tells anybody anything. |
| `ApexConnections.MessageRecord.ApplyTimestampOffset` | dstl/Apex-SAPIENT-Middleware/sapient_apex_server/connection.py:174-190 | The new state of a record that is shifted. |
| `ApexConnections.SharedData.SendToParent` | dstl/Apex-SAPIENT-Middleware/sapient_apex_server/connection.py:88-102 | The loop over the parents hands the record to all but the excepted writer, in order, counts them, and raises if the record has no content and there is one. |
| `ApexConnections.SharedData.SendErrorReplyIfNecessary` | dstl/Apex-SAPIENT-Middleware/sapient_apex_server/connection.py:130-171 | One error reply for a noisy error, none otherwise. |
| `ApexConnections.SharedData.ReplayTo` | dstl/Apex-SAPIENT-Middleware/sapient_apex_server/connection.py:432-446 | The loop tells a new subscriber about every registered node, in the order they registered. |
| `ApexConnections.SharedData.SetSensor` | dstl/Apex-SAPIENT-Middleware/sapient_apex_server/connection.py:281-288 | Filing a record replaces the node's record, keeps the others unshared, and keeps the node's place in the order. |
| `ApexConnections.ChildConnection.FilterDetection` | dstl/Apex-SAPIENT-Middleware/sapient_apex_server/connection.py:233-249 | A detection below the threshold gets an error, stored or not as configured; all else is left alone, records without parsed content included. |
| `ApexConnections.ChildConnection.HandleRegistration` | dstl/Apex-SAPIENT-Middleware/sapient_apex_server/connection.py:251-297 | The new state of all objects after a first message, errors included, is that of the specification the runs are proved about. |
| `ApexConnections.ChildConnection.AcceptRegistration` | dstl/Apex-SAPIENT-Middleware/sapient_apex_server/connection.py:264-297 | The offsets, the new record of the node, the peers told and the acknowledgement after a registration that passed its checks. |
| `ApexConnections.ChildConnection.HandleStatusReport` | dstl/Apex-SAPIENT-Middleware/sapient_apex_server/connection.py:344-362 | Status gating: an Unchanged report without a New one, or of another system, changes nothing but the error; others change the node's record as a reader's view changes. |
| `ApexConnections.ChildConnection.HandleOther` | dstl/Apex-SAPIENT-Middleware/sapient_apex_server/connection.py:299-375 | The new state after any later message: wrong node id, hijack, re-registration, status, filter and fan-out, as the specification of the runs says. |
| `ApexConnections.ChildConnection.HandleMessage` | dstl/Apex-SAPIENT-Middleware/sapient_apex_server/connection.py:377-400 | The whole handler refines the step of the runs. |
| `ApexConnections.ChildConnection.HandleClosed` | dstl/Apex-SAPIENT-Middleware/sapient_apex_server/connection.py:402-409 | Closing removes the node only if this child still owns it. |
| `ApexConnections.PeerConnection.constructor` | dstl/Apex-SAPIENT-Middleware/sapient_apex_server/connection.py:419-446 | Opening a peer subscribes it and replays the nodes to it, as the step of the runs does. |
| `ApexConnections.PeerConnection.HandleRegistration` | dstl/Apex-SAPIENT-Middleware/sapient_apex_server/connection.py:448-470 | A peer's registration: refused, inconsistent, or accepted and acknowledged. |
| `ApexConnections.PeerConnection.Route` | dstl/Apex-SAPIENT-Middleware/sapient_apex_server/connection.py:484-508 | Where a peer's message goes: to the destination's owner, in the owner's time, and to the parents. |
| `ApexConnections.PeerConnection.HandleMessage` | dstl/Apex-SAPIENT-Middleware/sapient_apex_server/connection.py:472-522 | The handler refines the step of the runs, with the exception it turns into a fatal error. |
| `ApexConnections.PeerConnection.HandleClosed` | dstl/Apex-SAPIENT-Middleware/sapient_apex_server/connection.py:524-525 | The peer leaves the list; nothing else changes. |
| `ApexConnections.ParentConnection.constructor` | dstl/Apex-SAPIENT-Middleware/sapient_apex_server/connection.py:536-565 | Opening a parent adds it to one list, and replays the nodes only to one that wants everything. |
| `ApexConnections.ParentConnection.HandleMessage` | services/apex/patches/route_parent_to_child.py:51-77 | The patched handler refines the step of the runs, and raises on a record without content. |
| `ApexConnections.ParentConnection.HandleClosed` | dstl/Apex-SAPIENT-Middleware/sapient_apex_server/connection.py:585-589 | The parent leaves the list it was in. |
| `ApexConnections.RecorderConnection.HandleMessage` | dstl/Apex-SAPIENT-Middleware/sapient_apex_server/connection.py:609-611 | A recorder's message goes to the forward-all parents. |
| `SavingTheorems.RolloverCommutes` | dstl/Apex-SAPIENT-Middleware/sapient_apex_server/sqlite_saver.py:156-238 | After any writes and rollovers, one more rollover and any items: the new database has exactly the connections active at that rollover and those opened since, closed or not, and exactly the messages pointed to at that rollover and those received since, each as if there had never been a rollover; and both foreign keys resolve. |
| `SavingTheorems.RollOverForgets` | dstl/Apex-SAPIENT-Middleware/sapient_apex_server/sqlite_saver.py:176-216 | Rolling over a database that was rolled over before gives what rolling over the full one would. |
| `SavingTheorems.RolloverRestricts` | dstl/Apex-SAPIENT-Middleware/sapient_apex_server/sqlite_saver.py:156-238 | After any rollovers the database is a part of the full one with all open connections. |
| `SavingTheorems.RollOverCloses` | dstl/Apex-SAPIENT-Middleware/sapient_apex_server/sqlite_saver.py:176-216 | The new database has every message its connections point to, and every connection its messages belong to. |
| `SavingTheorems.ApplyKeeps` | dstl/Apex-SAPIENT-Middleware/sapient_apex_server/sqlite_saver.py:94-154 | One connect, message or disconnect keeps a rolled-over database a part of the full one, and its foreign keys closed. |
| `SavingTheorems.ThreadWrites` | dstl/Apex-SAPIENT-Middleware/sapient_apex_server/sqlite_thread.py:74-119 | The rounds of the thread save every drained item up to the sentinel, once and in the order it was added, those drained before the last rollover before it and the others after it. |
| `SavingTheorems.ThreadRefinesSequentialSaving` | dstl/Apex-SAPIENT-Middleware/sapient_apex_server/sqlite_thread.py:83-117 | Once the queue is drained up to the sentinel all tables are determined: without a rollover they are those of saving one at a time; otherwise they hold exactly the connections active at the last rollover or opened since and the messages pointed to then or received since, as saving one at a time leaves them. |
| `SavingTheorems.ThreadWithoutRollover` | dstl/Apex-SAPIENT-Middleware/sapient_apex_server/sqlite_thread.py:92-117 | Without a rollover all tables are those of saving the items one at a time. |
| `SavedRuns.QueuedIsOrderly` | dstl/Apex-SAPIENT-Middleware/sapient_apex_server/apex_server.py:141-165 | What the server queues in any run meets what saving asks for: fresh ids, and messages and disconnections of open connections. A message is queued unless its error says not to store it or an exception left its handler. |
| `SavedRuns.PointersMatchSensors` | dstl/Apex-SAPIENT-Middleware/sapient_apex_server/sqlite_saver.py:94-122 | After every run of the server the row of each node's owner points to the registration, New and Unchanged status that the shared data hold. |
| `SavedRuns.ThreadShadowsSensors` | dstl/Apex-SAPIENT-Middleware/sapient_apex_server/sqlite_thread.py:74-119 | The same of the thread's database after any rounds and rollovers, once it is drained, with or without the sentinel at the end. |
| `SavingTheorems.PointersMeanHistory` | dstl/Apex-SAPIENT-Middleware/sapient_apex_server/sqlite_saver.py:94-122 | After any items, a row points to the connection's last registration without error, its last New status and last detection since, and its last Unchanged status since the New one. |
| `SavingTheorems.SavedRows` | dstl/Apex-SAPIENT-Middleware/sapient_apex_server/sqlite_saver.py:53-154 | After any orderly items the messages table has, for each message received, the row of that message as it was received, its error included, and nothing else; and the connections table has, for each connection, a row with the type, peer and time it was opened with and the time and reason it was closed with, if it was. |
| `SavingTheorems.ThreadRows` | dstl/Apex-SAPIENT-Middleware/sapient_apex_server/sqlite_thread.py:74-119 | The same of the thread's database after any rounds and rollovers, once it is drained: the rows it has are those of the messages received and connections opened since the last rollover, of the connections open then, and of the last messages of each kind that these had sent; and each is as above. |
| `SavedRuns.SavedAs` | dstl/Apex-SAPIENT-Middleware/sapient_apex_server/apex_server.py:141-165 | In every run a message is saved unless its error says not to, or it has no content and comes from a parent, or from a recorder while there is a forward-all parent; and then its row is its record as it ends, said of the events. |
| `SavedRuns.OpenedAs` | dstl/Apex-SAPIENT-Middleware/sapient_apex_server/apex_server.py:90-98 | The row of each connection of a run has the name of its kind, its peer and the time it was opened. |
| `Saving.BatchIsSequential` | dstl/Apex-SAPIENT-Middleware/sapient_apex_server/sqlite_saver.py:124-142 | Inserting all rows of a batch and then moving all pointers gives the tables of saving its messages one by one. |
| `Saving.SqliteSaver.InsertConnection` | dstl/Apex-SAPIENT-Middleware/sapient_apex_server/sqlite_saver.py:53-64 | The tables after a connection is inserted, with its type, peer and time and no pointers. |
| `Saving.SqliteSaver.UpdateConnectionMulti` | dstl/Apex-SAPIENT-Middleware/sapient_apex_server/sqlite_saver.py:94-122 | The loop moves the pointers of each message's row in order, skipping errors and unknown connections. |
| `Saving.SqliteSaver.InsertMessageMulti` | dstl/Apex-SAPIENT-Middleware/sapient_apex_server/sqlite_saver.py:124-142 | The tables after a batch are those of saving its messages in sequence, of which `SavingTheorems.SavedRows` says what every row holds. |
| `Saving.SqliteSaver.UpdateDisconnection` | dstl/Apex-SAPIENT-Middleware/sapient_apex_server/sqlite_saver.py:144-154 | The tables after a disconnection. |
| `Saving.SqliteSaver.RolloverExport` | dstl/Apex-SAPIENT-Middleware/sapient_apex_server/sqlite_saver.py:176-216 | Exports the active connections and exactly the messages that one of them points to. |
| `Saving.SqliteSaver.RolloverImport` | dstl/Apex-SAPIENT-Middleware/sapient_apex_server/sqlite_saver.py:156-174 | The imported rows are added to the tables. |
| `Saving.Rollover` | dstl/Apex-SAPIENT-Middleware/sapient_apex_server/sqlite_saver.py:223-238 | The new saver holds the exported rows and nothing else; the old one is unchanged. |
| `Saving.SqliteThread.Add` | dstl/Apex-SAPIENT-Middleware/sapient_apex_server/sqlite_thread.py:63-66 | An item is queued behind the others. |
| `Saving.SqliteThread.GroupEnd` | dstl/Apex-SAPIENT-Middleware/sapient_apex_server/sqlite_thread.py:95-100 | A group is the longest run of items of one type. |
| `Saving.SqliteThread.SaveMessages` | dstl/Apex-SAPIENT-Middleware/sapient_apex_server/sqlite_thread.py:106-113 | Messages are saved in slices: slice k holds those from 50k up to 50k + 50, or to the end; together this equals saving them in sequence. |
| `Saving.SqliteThread.SaveGroup` | dstl/Apex-SAPIENT-Middleware/sapient_apex_server/sqlite_thread.py:100-113 | Saving a group, messages in these slices, equals saving its items in sequence. |
| `Saving.SqliteThread.Round` | dstl/Apex-SAPIENT-Middleware/sapient_apex_server/sqlite_thread.py:74-119 | One round rolls over if due, saves everything pending up to the sentinel in sequence, and exits exactly if the sentinel was pending. |
| `Stitching.InsertAll` | dstl/Stone-Soup/stonesoup/stitcher.py:210-217 | The insertion loop changes every chain that holds the mark, beside its first occurrence, and no other. |
| `Stitching.Build` | dstl/Stone-Soup/stonesoup/stitcher.py:202-217 | For any assignment in which no track follows two others, in any order of its keys, the chains are paths in which each edge is a consecutive pair at exactly one place. |
| `Stitching.MergeAll` | dstl/Stone-Soup/stonesoup/stitcher.py:219-240 | The index-juggling loop terminates; it succeeds exactly when the assignment has no cycle, and then ends at vertex-disjoint paths that cannot be extended. |
| `Stitching.Fuse` | dstl/Stone-Soup/stonesoup/stitcher.py:222-236 | Fusing two chains that join keeps each edge at one place; the second removal raises if and only if both are one chain, which is exactly when the first closes on itself. |
| `Stitching.FinishedIsMaximal` | dstl/Stone-Soup/stonesoup/stitcher.py:219-240 | Chains of which no two join are the maximal, vertex-disjoint paths. |
| `Stitching.MaximalIsAcyclic` | dstl/Stone-Soup/stonesoup/stitcher.py:219-240 | If the edges form such paths, the assignment has no cycle. |
| `Stitching.LaterIsAcyclic` | dstl/Stone-Soup/stonesoup/stitcher.py:198-200 | If each assigned track starts later than the one before, there is no cycle. |
| `Stitching.TakeChain` | dstl/Stone-Soup/stonesoup/stitcher.py:244-249 | The tracks of a chain are each found and removed once, and their states joined in order; no state is lost. |
| `Stitching.JoinedInOrder` | dstl/Stone-Soup/stonesoup/stitcher.py:244-249 | The states of one track are its own, and those of a chain in two parts are those of the first part followed by those of the second. |
| `Stitching.JoinTracks` | dstl/Stone-Soup/stonesoup/stitcher.py:242-252 | After joining all chains each track was used at most once, each new track has the joined states of its chain, the others are as before, and the multiset of states is conserved. |
| `Stitching.Stitch` | dstl/Stone-Soup/stonesoup/stitcher.py:198-254 | From the assignment to the tracks: fails exactly on a cycle; otherwise the chains are the maximal paths and the states are conserved. |
| `Framing.SplitStream` | deprecated/compat-baseline/edge-sim/driver/framer.py:36-51 | The loop returns the complete frames and the rest. |
| `Framing.SplitReassembles` | deprecated/compat-baseline/edge-sim/driver/framer.py:18-51 | The encoded frames and the rest are the input. |
| `Framing.SplitComposes` | deprecated/compat-baseline/edge-sim/driver/framer.py:36-51 | Splitting as the bytes come in gives the frames and the rest of splitting all at once. |
| `Framing.SplitInvertsEncode` | deprecated/compat-baseline/edge-sim/driver/framer.py:18-51 | Splitting encoded frames followed by an incomplete rest gives them back. |
| `Framing.SplitUnique` | deprecated/compat-baseline/edge-sim/driver/framer.py:18-51 | There is no other way to read a buffer as encodable frames and an incomplete rest. |
| `Framing.U32RoundTrip` | deprecated/compat-baseline/edge-sim/driver/framer.py:14-20 | Unpacking a packed length gives it back. |
| `Framing.U32Injective` | deprecated/compat-baseline/edge-sim/driver/framer.py:14-20 | Packing an unpacked header gives it back. |
| `MessageBuilder.ByteDataMessageBuilder.AddHeader` | dstl/BSI-Flex-335-v2-Test-Harness/SAPIENTMessageProcessor/ByteDataMessageBuilder.cs:14-23 | On a machine of either byte order, the bytes of the integer, turned around where needed, make the header that the Python framer packs, for any array. |
| `MessageBuilder.ByteDataMessageBuilder.GetMessageLengthFromHeader` | dstl/BSI-Flex-335-v2-Test-Harness/SAPIENTMessageProcessor/ByteDataMessageBuilder.cs:106-120 | On a machine of either byte order, the integer read is the framer's length as a 32-bit two's complement, or 0 with four bytes or less. |
| `MessageBuilder.ByteDataMessageBuilder.AddData` | dstl/BSI-Flex-335-v2-Test-Harness/SAPIENTMessageProcessor/ByteDataMessageBuilder.cs:25-35 | What a call delivers, keeps and whether it raises. |
| `MessageBuilder.ByteDataMessageBuilder.ProcessReceivedData` | dstl/BSI-Flex-335-v2-Test-Harness/SAPIENTMessageProcessor/ByteDataMessageBuilder.cs:54-120 | The recursion, with its 32-bit sums, delivers the frames the specification of the builder says, in order, and terminates. |
| `MessageBuilder.BuilderDelivers` | dstl/BSI-Flex-335-v2-Test-Harness/SAPIENTMessageProcessor/ByteDataMessageBuilder.cs:54-69 | The frames delivered are those of plain splitting up to the first that is empty or has 2^31 - 4 bytes or more. |
| `MessageBuilder.BuilderKeeps` | dstl/BSI-Flex-335-v2-Test-Harness/SAPIENTMessageProcessor/ByteDataMessageBuilder.cs:85-104 | The encoded delivered frames and the kept bytes are all bytes. |
| `MessageBuilder.AgreesExactlyWhen` | dstl/BSI-Flex-335-v2-Test-Harness/SAPIENTMessageProcessor/ByteDataMessageBuilder.cs:54-69 | Builder and plain splitting agree on a buffer, and the builder does not raise, if and only if every frame in it has at least one and less than 2^31 - 4 bytes and the rest announces no length from 2^31 - 4 on and below 2^31. |
| `MessageBuilder.RaisesExactlyWhen` | dstl/BSI-Flex-335-v2-Test-Harness/SAPIENTMessageProcessor/ByteDataMessageBuilder.cs:54-83 | After any calls, one with data raises if and only if more than four bytes follow the frames the builder gets past and announce a length from 2^31 - 4 on and below 2^31. |
| `MessageBuilder.StuckForGood` | dstl/BSI-Flex-335-v2-Test-Harness/SAPIENTMessageProcessor/ByteDataMessageBuilder.cs:54-69 | With a kept header that announces 0, or 2^31 - 4 or more, nothing is delivered any more, whatever comes. |
| `MessageBuilder.GoesOnUnlessStuck` | dstl/BSI-Flex-335-v2-Test-Harness/SAPIENTMessageProcessor/ByteDataMessageBuilder.cs:54-69 | In any other case some bytes make the builder deliver another frame. |
| `MessageBuilder.EmptyFrameStops` | dstl/BSI-Flex-335-v2-Test-Harness/SAPIENTMessageProcessor/ByteDataMessageBuilder.cs:54-69 | An input: an empty frame, then one of one byte; the framing has both, the builder delivers neither. |
| `MessageBuilder.LongFrameRaises` | dstl/BSI-Flex-335-v2-Test-Harness/SAPIENTMessageProcessor/ByteDataMessageBuilder.cs:54-83 | An input: the builder raises at the fifth byte of a buffer without any frame, and not at the fourth. |
| `MessageBuilder.LongerFrameStalls` | dstl/BSI-Flex-335-v2-Test-Harness/SAPIENTMessageProcessor/ByteDataMessageBuilder.cs:106-120 | An input: a length of 2^31 reads as negative, and the builder neither raises nor delivers anything, whatever follows. |
| `MessageBuilder.FedDelivers` | dstl/BSI-Flex-335-v2-Test-Harness/SAPIENTMessageProcessor/ByteDataMessageBuilder.cs:25-69 | After any sequence of AddData calls the frames delivered depend only on all bytes so far, not on how they were cut. |
| `Receiving.ReceiveUntil` | dstl/Apex-SAPIENT-Middleware/sapient_apex_server/trio_util.py:63-114 | For any chunks, the verdict and the bytes left are those of one search in all bytes: a message exactly if a delimiter starts within max_size bytes, and then the bytes up to the first one, with it or without as asked; end of file exactly if there is none and no more than max_size bytes and a delimiter's length are left; too long otherwise, with all bytes left. |
| `Receiving.UntilExactlyWhen` | dstl/Apex-SAPIENT-Middleware/sapient_apex_server/trio_util.py:94-114 | These conditions determine the verdict and the bytes left on all bytes, delimiters and limits. |
| `Receiving.NoneStraddles` | dstl/Apex-SAPIENT-Middleware/sapient_apex_server/trio_util.py:100-107 | The resumed search skips no delimiter, even one that straddles two chunks. |
| `Receiving.FoundEarly` | dstl/Apex-SAPIENT-Middleware/sapient_apex_server/trio_util.py:98-101 | The first delimiter in what has arrived is the first in all bytes. |
| `Receiving.NotFoundEarly` | dstl/Apex-SAPIENT-Middleware/sapient_apex_server/trio_util.py:99-100 | Giving up before the delimiter has arrived is right wherever it comes. |
| `Receiving.ReceiveSizePrefixed` | dstl/Apex-SAPIENT-Middleware/sapient_apex_server/trio_util.py:117-163 | For any chunks: end of file without a header or with less than the size it announces, too long exactly if that size exceeds max_size, and otherwise the message; a header that was accepted is gone even if its message never comes. |
| `Receiving.PrefixedExactlyWhen` | dstl/Apex-SAPIENT-Middleware/sapient_apex_server/trio_util.py:139-163 | These conditions determine the verdict and the bytes left on all bytes and limits. |
| `Receiving.ReadToChannel` | dstl/Apex-SAPIENT-Middleware/sapient_apex_server/apex_server.py:106-128 | The read loop yields the same messages and ends with the same exception for every way to cut the bytes into chunks, and it ends only at bytes that start with no acceptable message. |
| `Receiving.DelimitedReassemble` | dstl/Apex-SAPIENT-Middleware/sapient_apex_server/trio_util.py:63-114 | The messages read up to a delimiter and the bytes left are all bytes. |
| `Receiving.EachDelimited` | dstl/Apex-SAPIENT-Middleware/sapient_apex_server/trio_util.py:108-114 | Each message ends with its first delimiter and is of acceptable size. |
| `Receiving.StopsOnlyWhen` | dstl/Apex-SAPIENT-Middleware/sapient_apex_server/apex_server.py:106-128 | Reading on ends exactly where no delimiter starts within max_size bytes, or where the header is missing, announces too much, or more than there is. |
| `Receiving.PrefixedMessages` | dstl/Apex-SAPIENT-Middleware/sapient_apex_server/trio_util.py:140-163 | The messages read by size prefix are the frames of plain splitting up to the first that is too long. |
| `BufferedSending.BufferedWriter.WriteNowait` | dstl/Apex-SAPIENT-Middleware/sapient_apex_server/trio_util.py:48-60 | The new state of the writer, overflow included, is that of the step the interleavings are proved about. |
| `BufferedSending.BufferedWriter.PerformWrites` | dstl/Apex-SAPIENT-Middleware/sapient_apex_server/trio_util.py:37-46 | From one await of the sending task to the next: parks, raises, or takes the whole buffer. |
| `BufferedSending.BufferedWriter.SendAllReturns` | dstl/Apex-SAPIENT-Middleware/sapient_apex_server/trio_util.py:46-46 | The block in flight has been taken by the stream. |
| `BufferedSending.RunKeepsInv` | dstl/Apex-SAPIENT-Middleware/sapient_apex_server/trio_util.py:37-60 | In every interleaving no buffer or block exceeds the limit, and the sending task is parked only with nothing to send and no exception to raise. |
| `BufferedSending.NothingLost` | dstl/Apex-SAPIENT-Middleware/sapient_apex_server/trio_util.py:37-60 | In every interleaving the stream is given the messages in order, in blocks of whole messages, and the buffer holds all the others. |
| `BufferedSending.Conservation` | dstl/Apex-SAPIENT-Middleware/sapient_apex_server/trio_util.py:37-60 | Until an overflow, what was sent, is in flight and is buffered are all messages written, in order. |
| `BufferedSending.OverflowIsFinal` | dstl/Apex-SAPIENT-Middleware/sapient_apex_server/trio_util.py:50-58 | After an overflow nothing is sent beyond the block in flight, whatever happens. |
| `BufferedSending.OverflowsExactlyWhen` | dstl/Apex-SAPIENT-Middleware/sapient_apex_server/trio_util.py:48-60 | In every interleaving the writer has overflowed if and only if at some write the messages written since the last hand-over, that one included, were longer than the limit together. |
| `BufferedSending.ResumesExactly` | dstl/Apex-SAPIENT-Middleware/sapient_apex_server/trio_util.py:37-46 | From any state, a runnable sending task raises exactly after an overflow, parks exactly with nothing buffered, and otherwise hands over the whole buffer. |
| `BufferedSending.AllIsSent` | dstl/Apex-SAPIENT-Middleware/sapient_apex_server/trio_util.py:37-60 | From every state reached without an overflow, three more steps of the sending task and the stream send everything that was written. |
| `BufferedSending.SmallIsSent` | dstl/Apex-SAPIENT-Middleware/sapient_apex_server/trio_util.py:37-60 | If the messages together stay within the limit there is no overflow, and so all of them are sent. |
| `Merging.Merge` | dstl/Apex-SAPIENT-Middleware/sapient_apex_qt_helpers/model_merger.py:75-156 | The two-index loop, for rows in any order and with repeated keys, whatever the items hold, raises if and only if a row that is kept changes in a column for which it has no item; otherwise it ends at the specified rows and items. Its calls that insert or remove rows of the item model, on all levels, are the specified ones, up to an exception, and minimal on every level when keys are distinct. When it raises, rows, items and calls are those of the specified place where it stops. |
| `Merging.UpdateRow` | dstl/Apex-SAPIENT-Middleware/sapient_apex_qt_helpers/model_merger.py:158-178 | Items of the columns both lists have get the new data, roles no longer present cleared; other items and all flags are left alone. It raises if and only if a column that changed has no item. |
| `Merging.MergeReachesNew` | dstl/Apex-SAPIENT-Middleware/sapient_apex_qt_helpers/model_merger.py:75-145 | Whatever the rows were, they end equal to the new rows, sorted, in keys, columns and children on every level. |
| `Merging.EditsAreMinimal` | dstl/Apex-SAPIENT-Middleware/sapient_apex_qt_helpers/model_merger.py:50-61 | For new rows with distinct keys on every level, in any order, merged into rows sorted by distinct keys: under every path, a row is inserted once if its key is new there and never otherwise, and removed once if its key is gone from a level that stays and never otherwise. |
| `Merging.SortDistinct` | dstl/Apex-SAPIENT-Middleware/sapient_apex_qt_helpers/model_merger.py:88-88 | Rows with distinct keys are strictly ascending once sorted, with distinct keys below as before. |
| `Merging.SortKeepsLevels` | dstl/Apex-SAPIENT-Middleware/sapient_apex_qt_helpers/model_merger.py:88-88 | Sorting changes what is found under no path. |
| `Merging.MergedIsStrict` | dstl/Apex-SAPIENT-Middleware/sapient_apex_qt_helpers/model_merger.py:75-145 | Whatever the old rows, new rows with distinct keys leave rows sorted by distinct keys on every level, which is what the next merge needs. |
| `Merging.MirrorsExactlyWhenFits` | dstl/Apex-SAPIENT-Middleware/sapient_apex_qt_helpers/model_merger.py:50-61 | From items that mirrored the rows no merge raises, and they mirror the merged rows if and only if the rows that are kept have as many columns as before. |
| `Merging.NewColumnIsLost` | dstl/Apex-SAPIENT-Middleware/sapient_apex_qt_helpers/model_merger.py:158-178 | An input: a row of one column that gets a second one is no longer mirrored. |
| `Merging.NewColumnRaises` | dstl/Apex-SAPIENT-Middleware/sapient_apex_qt_helpers/model_merger.py:158-178 | An input: the next change in that second column raises, since `child` finds no item for it. |
| `Merging.RaisesExactlyWhen` | dstl/Apex-SAPIENT-Middleware/sapient_apex_qt_helpers/model_merger.py:158-174 | With distinct keys, a merge raises if and only if there is a path of keys to a row that is in both trees and changes in a column for which it has no item. |
| `Merging.UniformFits` | dstl/Apex-SAPIENT-Middleware/sapient_apex_qt_helpers/model_merger.py:63-70 | Rows of one fixed number of columns always meet that condition, and the merged rows are such rows again. |
| `Merging.SortIsStable` | dstl/Apex-SAPIENT-Middleware/sapient_apex_qt_helpers/model_merger.py:88-88 | The sorted rows ascend, and rows of one key keep their order. |
| `Merging.ModelMerger.Update` | dstl/Apex-SAPIENT-Middleware/sapient_apex_qt_helpers/model_merger.py:72-73 | In sync or not, an update keeps as many items as rows, and raises exactly as above, never from sync, after which rows, items and calls are those of the place where it stops; without an exception it reaches the new data, and with distinct keys these stay sorted and the edits on all levels are minimal. The model stays in sync exactly under the condition above. |
| `MergedTrees.MergedAt` | dstl/Apex-SAPIENT-Middleware/sapient_apex_qt_helpers/model_merger.py:75-156 | With distinct keys, after a merge every path of keys shows: nothing that the new rows do not have; a new row as it is there, with items that hold it; a kept row with the new columns, its old flags, and its old items brought up to date. |
| `MergedTrees.RolesAfter` | dstl/Apex-SAPIENT-Middleware/sapient_apex_qt_helpers/model_merger.py:158-178 | An item brought up to date has, of a column that changed, the new value of each role in the new data, none of the roles that only the old data had, and its own value of all others; of a column that did not change it is as before. |
| `MergedTrees.StopsAtFirstBreak` | dstl/Apex-SAPIENT-Middleware/sapient_apex_qt_helpers/model_merger.py:75-156 | With distinct keys, every merge that raises stops at the first row, in the order of keys with a row before those below it, that changes in a column for which it has no item: every path before it shows what a whole merge shows, that row has its items brought up to date as far as they go and its old columns, every other path shows what was there, and the calls made are exactly those whose place is before it. |
| `JsonScanning.HighlightBlock` | dstl/Apex-SAPIENT-Middleware/sapient_apex_qt_helpers/syntax_highligher_json.py:55-113 | For any text and any stack the nested loops terminate, the spans tile the line, and they give each character the type of the scan. |
| `JsonScanning.ScanString` | dstl/Apex-SAPIENT-Middleware/sapient_apex_qt_helpers/syntax_highligher_json.py:73-83 | The repeated search finds the first quote that follows no backslash, or the end. |
| `JsonScanning.ScanPunctuation` | dstl/Apex-SAPIENT-Middleware/sapient_apex_qt_helpers/syntax_highligher_json.py:85-104 | A run of punctuation moves the stack as its characters do one by one. |
| `JsonScanning.ScanNormal` | dstl/Apex-SAPIENT-Middleware/sapient_apex_qt_helpers/syntax_highligher_json.py:106-110 | Other characters run up to the next punctuation, quotes included. |
| `JsonScanning.TypesMean` | dstl/Apex-SAPIENT-Middleware/sapient_apex_qt_helpers/syntax_highligher_json.py:55-113 | In any line, from any stack: what is painted as punctuation are brackets, colons, commas and spaces; what is painted as normal text is none of these; all else lies in a token that starts with a quote and that no quote without a backslash has ended before. |
| `JsonScanning.PushMeans` | dstl/Apex-SAPIENT-Middleware/sapient_apex_qt_helpers/syntax_highligher_json.py:85-104 | On any stack: an opening bracket is pushed; a closing one takes off its own opening bracket and no other, a closing brace after an open colon both; a colon is pushed once and taken off by the next comma; nothing else changes the stack. |
| `JsonPrinted.StringScannedExactlyWhen` | dstl/Apex-SAPIENT-Middleware/sapient_apex_qt_helpers/syntax_highligher_json.py:78-83 | A printed string is scanned as one token if and only if it does not end in a backslash, or ends its line. |
| `JsonPrinted.BackslashRunsOn` | dstl/Apex-SAPIENT-Middleware/sapient_apex_qt_helpers/syntax_highligher_json.py:78-83 | An input: in the object whose only key is a backslash, all that follows is painted as the key and the brace stays on the stack. |
| `JsonPrinted.EscapeEscapes` | dstl/Apex-SAPIENT-Middleware/sapient_apex_qt_helpers/syntax_highligher_json.py:80-82 | In a string printed with all escapes of JSON, in ASCII, every quote follows a backslash, and it ends in one exactly if the string does. |
| `JsonPrinted.DocumentScanned` | dstl/Apex-SAPIENT-Middleware/sapient_apex_qt_helpers/syntax_highligher_json.py:55-113 | Tokens laid out over lines are scanned token by token, the stack carried from line to line, if and only if each string that ends in a backslash is the last of its line. |
| `JsonPrinted.ValueLeads` | dstl/Apex-SAPIENT-Middleware/sapient_apex_qt_helpers/syntax_highligher_json.py:85-104 | Over the tokens of any JSON value the stack comes back to where it was, and a string is at a key's place exactly if it is an object key. |
| `JsonPrinted.LayoutIsFree` | dstl/Apex-SAPIENT-Middleware/sapient_apex_qt_helpers/syntax_highligher_json.py:57-68 | Spaces and line breaks between the tokens change neither the stack nor the places of keys. |
| `JsonPrinted.ValueHighlightedExactlyWhen` | dstl/Apex-SAPIENT-Middleware/sapient_apex_qt_helpers/syntax_highligher_json.py:55-113 | For a printed value in any layout over lines: every character gets the type of its token, with keys and no other strings marked as keys, if and only if each string that ends in a backslash is the last of its line; and then the stack ends as it began. |
| `XmlScanning.StepIsSound` | dstl/Apex-SAPIENT-Middleware/sapient_apex_qt_helpers/syntax_highlighter_xml.py:62-117 | Each step moves forward or goes down in rank in place, and keeps what rules out the exception of the lookup. |
| `XmlScanning.HighlightBlock` | dstl/Apex-SAPIENT-Middleware/sapient_apex_qt_helpers/syntax_highlighter_xml.py:139-165 | From a state lines end in, the loop terminates despite steps of no width, no lookup raises, the spans tile the line and paint the scan, and the line ends in such a state again. |
| `XmlScanning.SpacesOfXml` | dstl/Apex-SAPIENT-Middleware/sapient_apex_qt_helpers/syntax_highlighter_xml.py:58-58 | The white space of the search has that of section 2.3 of XML 1.0, and none of the ASCII characters of names. |
| `XmlScanning.ElementEndRaisesExactlyWhen` | dstl/Apex-SAPIENT-Middleware/sapient_apex_qt_helpers/syntax_highlighter_xml.py:89-92 | The lookup raises exactly from that state with no closing bracket ahead. |
| `XmlLines.RunLeads` | dstl/Apex-SAPIENT-Middleware/sapient_apex_qt_helpers/syntax_highlighter_xml.py:62-114 | Inside text, a comment, an attribute name or value, the scanner stays in that state over any lines up to the first place that ends it. |
| `XmlLines.LinesScanned` | dstl/Apex-SAPIENT-Middleware/sapient_apex_qt_helpers/syntax_highlighter_xml.py:139-165 | Scanning line after line, each from the state the one before ended in, gives the states of the scan of the whole text, cut at its line breaks. |
| `XmlPrinted.LineHighlighted` | dstl/Apex-SAPIENT-Middleware/sapient_apex_qt_helpers/syntax_highlighter_xml.py:62-117 | Printed XML of one line, text, comments and tags with any attributes: each character gets the state of the part it belongs to, and the next line starts outside of any tag. |
| `XmlPrinted.TextScanned` | dstl/Apex-SAPIENT-Middleware/sapient_apex_qt_helpers/syntax_highlighter_xml.py:62-117 | Printed XML over any lines, with line breaks in text, comments, attribute values, between attributes or after the name: each character gets the state of the part it belongs to, and each line break the state carried over it. |
| `XmlPrinted.AttributesLead` | dstl/Apex-SAPIENT-Middleware/sapient_apex_qt_helpers/syntax_highlighter_xml.py:94-114 | Attributes in either kind of quotes, whatever their values hold, and the tail of the tag, over any lines; the end of the element starts on the line of its bracket. |
| `XmlPrinted.CommentLeads` | dstl/Apex-SAPIENT-Middleware/sapient_apex_qt_helpers/syntax_highlighter_xml.py:67-76 | A comment runs to its own end mark, over any lines. |
| `XmlPrinted.NameLeads` | dstl/Apex-SAPIENT-Middleware/sapient_apex_qt_helpers/syntax_highlighter_xml.py:78-87 | A tag's name is never taken for a comment and runs to the bracket, the white space or the end of the line. |
| `XmlPrinted.HighlightDocument` | dstl/Apex-SAPIENT-Middleware/sapient_apex_qt_helpers/syntax_highlighter_xml.py:139-165 | The spans of a document of printed XML paint every line as they should, wherever comments, tags and attribute values go over line breaks. |
| `NtpVoting.OffsetWithinHalfRtt` | services/ntp/app/probe.py:67-73 | Section 8 of RFC 5905: for any path delays the measured round trip is the sum of the delays, and the offset is off by half their difference, at most half the round trip. |
| `NtpVoting.ReplySeverity` | services/ntp/app/probe.py:72-83 | A reply's severity is Fail exactly if its offset is 2.0 seconds or more in size, and Good exactly if it is less than 0.5. |
| `NtpVoting.MajorityHoldsMedian` | services/ntp/app/main.py:77-78 | If more than half of the values lie in an interval, so does the median. |
| `NtpVoting.VoteWithinError` | services/ntp/app/main.py:51-102 | If more than half of the reached servers are within an error of the true offset, so is the vote. |
| `NtpVoting.VoteWithinHalfRtt` | services/ntp/app/main.py:51-102 | If more than half of the reached servers have one clock and no path to them takes a negative time, the vote is off by at most half of any bound on their round trips. |
| `NtpVoting.SomeAtLeastMedian` | services/ntp/app/main.py:77-79 | Some value is at least as large in size as the median. |
| `NtpVoting.VotedSeverityIsWorst` | services/ntp/app/main.py:79-90 | The voted severity is that of the worst reached server: the median's own never exceeds it. |
| `NtpVoting.VotedSeverityExactlyWhen` | services/ntp/app/main.py:51-102 | The voted severity is Fail exactly if no server was reached or one that was is off by 2.0 seconds or more, and Good exactly if some were reached and all of them are off by less than 0.5. |
| `NtpVoting.VoteIsMedian` | services/ntp/app/main.py:76-93 | The voted offset and round trip are the medians of the reached servers': the middle value in ascending order, or the mean of the middle two. |
| `NtpVoting.MedianIs` | services/ntp/app/main.py:77-78 | Of any values, whichever way they are put in ascending order. |
| `NtpVoting.ReachedAre` | services/ntp/app/main.py:58-58 | The results that count are exactly those that answered with an offset, each as often as it is there. |
| `Replaying.CollectsSeed` | dstl/Apex-SAPIENT-Middleware/sapient_apex_replay/replay.py:140-182 | The dictionary holds, per node, its last registration, its last New status, and its last Unchanged status exactly if no New one followed it. |
| `Replaying.SortedKeys` | dstl/Apex-SAPIENT-Middleware/sapient_apex_replay/replay.py:182-182 | The keys are those of the dictionary; those of one node are together, in the order registration, New, Unchanged, and the nodes ascend. |
| `Replaying.IncreasingMeans` | dstl/Apex-SAPIENT-Middleware/sapient_apex_replay/replay.py:182-182 | In keys in this order each occurs once, nodes ascend, and of a node the registration is at an earlier position than the New status, and both than the Unchanged one. |
| `Replaying.Database.GetInitialMessages` | dstl/Apex-SAPIENT-Middleware/sapient_apex_replay/replay.py:140-182 | The initial messages are that state before the start time, node by node and of each node the registration, the New and the Unchanged status in that order; it raises exactly if no row is at the start time or later. |
| `Replaying.Database.GetMessages` | dstl/Apex-SAPIENT-Middleware/sapient_apex_replay/replay.py:184-200 | The generator resumes at the first row not consumed and stops before the first at the end time or later. |
| `Replaying.Replay` | dstl/Apex-SAPIENT-Middleware/sapient_apex_replay/replay.py:140-200 | State and window together consume the first rows of the table, none lost or repeated up to the end time. |
| `ReplayedRuns.RowsAgree` | dstl/Apex-SAPIENT-Middleware/sapient_apex_replay/replay.py:140-182 | Over the saved rows of any run in which only children report a node, in the order in which they were handled, what is current since its last registration is what the shared data hold. |
| `ReplayedRuns.SelectsRows` | dstl/Apex-SAPIENT-Middleware/sapient_apex_replay/replay.py:121-139 | The rows that the query selects from the saved messages, those without an error in the order of their ids, are the rows of the run. |
| `ReplayedRuns.SeedIsReplayedExactlyWhen` | dstl/Apex-SAPIENT-Middleware/sapient_apex_replay/replay.py:121-182 | After any run, the seed that a replay, which reads the rows of the saved database in the order of their ids, has for a registered node is what a peer that joins is told if and only if no saved report of the node has a greater id than the one of its kind in the shared data, and these are in the order of ids themselves. |
| `ReplayedRuns.InOrderSeedExactlyWhen` | dstl/Apex-SAPIENT-Middleware/sapient_apex_replay/replay.py:121-182 | If the reports of a node were handled in the order of their ids, and only children report it, the seed has its registration, and its statuses are those a peer is told if and only if it has reported a New one since that registration, or never has. |
| `ReplayedRuns.OneReporterInOrder` | dstl/Apex-SAPIENT-Middleware/sapient_apex_server/apex_server.py:120-155 | The reports of a node that one connection alone reports are handled in the order of their ids, since one task numbers them and one handles them. |
| `ReplayedRuns.OvertakenRegistration` | dstl/Apex-SAPIENT-Middleware/sapient_apex_server/apex_server.py:120-155 | An input: of two children that register as one node the one with the greater id is handled first, while the other waits behind a message of its own; peers are told the other, and the replay starts with the first. |

## Left out

* Sockets, task nurseries, reconnecting, configuration loading, logging, HTTP endpoints and
  Elasticsearch: input and output without logic of their own.
* Message formats: protobuf and XML parsing and building, validation, translation between versions,
  node id assignment. A parsed record is a value; both parsers fill in at most one of registration,
  status report and detection confidence, so these are the cases of one type. Of an error only the
  severity and the reason are kept, not its text.
* `ApexConnections.MessageRecord.ApplyTimestampOffset`: the rewritten time element and the serialised bytes
  that are renewed with it, which are message formats.
* `ApexConnections.SharedData.SendErrorReplyIfNecessary`: the packet and the description inside the reply,
  which are message formats; that there is a reply, to whom and for which message is modelled.
* `ApexConnections.ChildConnection.AcceptRegistration`: the sensor id given to an XML registration and the
  message format kept for the node, which are message formats.
* Writers that raise while they send. One case is kept: a record without parsed content makes the first
  writer raise, and the child and peer handlers turn that into a fatal error.
* References to records: the shared data and the database store a record's content when it is handled.
  Nothing writes to a record afterwards, so the model does not capture sharing of records.
* A record's times are whole milliseconds, and the clock is a parameter.
* `Saving.SqliteSaver.InsertMessageMulti`: the time of saving, which is the clock's and differs between a
  batch and its messages one by one, and the text columns, which are message formats.
* `Saving.SqliteSaver.RolloverExport`: the name of the new file that is noted in the old database.
* `Saving`: SQL errors and duplicate keys, which fresh ids rule out; that the swap of the pending list and
  an append are atomic is assumed.
* Stitching before the assignment: predictions, distances and the linear sum assignment itself. Its
  columns are distinct, so no track follows two others. Tracks are a map from id to states, and the ids
  of new tracks are given. `_merge_forward_and_backward` is not part of this model.
* `Stitching.LaterIsAcyclic`: that an assigned track starts later is taken from the caller; the predictions
  pair a track only with one that starts after it ends.
* `MessageBuilder.ByteDataMessageBuilder.AddHeader`: arrays have less than 2^31 bytes, as in .NET; that a
  buffer of received bytes meets that limit too is not modelled.
* `Receiving.ReadToChannel`: an empty delimiter, with which repeated reading makes no progress; the
  server uses one byte. A single read allows it.
* `BufferedSending`: the stream raising an error while it sends.
* `Merging.Merge`: Qt items and rows are values, lists the source mutates are written back; two trees
  that share a list are not captured. Rows have at least one column, and role values are not None. A row has
  items for the columns it was inserted with, and `child` finds none beyond them. That an exception leaves
  entries for cleared roles in the new data of its column is not modelled.
* `MergedTrees.MergedAt`: rows with repeated keys on one level, which no path tells apart;
  `MergedTrees.StopsAtFirstBreak` leaves them out too, and `Merging.Merge` covers them.
* `XmlPrinted.TextScanned`: XML that is not well formed, names that start with `!--`, and declarations with quotes
  or brackets of their own; that any line is scanned without an exception and tiled is
  `XmlScanning.HighlightBlock`.
* `NtpVoting`: rounding of floating point, which is real arithmetic here, and the text of errors.
* `Replaying.Database.GetMessages`: the rows come as one list and not one by one, and their conversion to
  the wanted version and format, which are message formats.
* `ReplayedRuns.InOrderSeedExactlyWhen`: nodes that a peer, parent or recorder also reports, whose rows the replay
  does not tell from the child's; `ReplayedRuns.SeedIsReplayedExactlyWhen` covers them.
* `Replaying`: rows without a node id, whose keys do not compare.
