# A verified model of the DHCP server

The server receives datagrams in one thread, queues them, and lets a worker thread
answer them from a pool of addresses and a list of lease bindings. This project models
that program in Dafny and proves what it guarantees over whole runs, for all inputs.

The model has four layers.

* **Lists.** `IntrusiveLists` is the LIST and TAILQ macros on the heap, back pointers to
  slots included. `OptionList` and `BindingTable` are the code that works on such lists:
  the options codec and the table of bindings, with elements unlinked and freed during
  a traversal.
* **Wire format.** `OptionFormat` says which bytes the parser accepts and rejects.
  `MessageType` is the second reader of the same bytes, the scan for the message type, and
  `StandardReader` a reader as RFC 2132 has it. `Replies` is the replies as the handlers
  write them, `ReplyContents` what then stands in them byte by byte; `Samples` is
  well-formed datagrams for examples.
* **Leases.** `Leases` is the state machine of the handlers, `LeaseInvariant` what every
  run of it keeps. `ClientStacks` shows that clients cannot tell it from a server that
  keeps one stack of addresses per client; `LeaseHistory` and `ClientView` say what that
  means for a client that only sees the record of a run. `Dispatch` says in plain numbers
  what each type of datagram comes to, `LeaseTerms` when leases end and what replies say of
  the configuration. `DhcpServer` is the handlers on the heap, proved to compute the steps
  of the machine and to send its replies.
* **Threads.** `TaskQueue` is the shifting array queue, `WorkerLoop` the body of a worker
  on the heap. `Threads` is the receiver and any number of workers as interleaved steps
  over two mutexes and a condition variable; a handler that looks a binding up and goes on
  with it takes two steps. `ThreadOrder`, `ThreadWakeup`, `ThreadAddresses`,
  `ThreadProgress`, `ThreadBindings`, `ThreadHistory` and `ThreadTerms` are what holds in
  every interleaving, `ThreadSequential` what holds with one worker. What goes wrong with several
  has a module each: `ThreadOvertaking`, `ThreadStale`, `ThreadCollision`, `ThreadHang`,
  built from the pieces of `ThreadRuns`, and `UnlockedInsert`, which takes apart the one
  step that inserting into the list is for the others.

The main results:

1. With the single worker the program starts, every interleaving with the receiver leaves
   the state, the actions and the replies of the sequential machine on a prefix of the
   datagrams, in arrival order (`OneWorkerIsSequential`). Datagrams are handled in the order
   of arrival if and only if there is at most one worker (`HandledInOrderIff`).
2. With any number of workers on any pool, the threads stop only where each datagram that
   has arrived has been handled once, save those of workers that are about to use a freed
   binding: no wakeup is lost (`NoDatagramLeftBehind`). That they do stop, after a bounded
   number of steps from every reachable state, holds if and only if there is at most one
   worker, or the pool ends before 2^32 - 1, or it offers nothing, or it starts at 0
   (`SettlesIff`).
3. With any number of workers no address is offered twice, neither at once nor over a whole
   run, if and only if the pool does not end at 2^32 - 1, or there is at most one worker, or
   the pool offers nothing (`NoDoubleOfferIff`, `NeverOfferedTwiceIff`). In these cases,
   however the handlers overlap, the offers made and under way are distinct addresses, as
   many as the cursor has come (`OffersOfInterleaving`); each client's bindings are its
   outstanding offers (`StacksOfInterleaving`); and what an ACK, decline or release is about
   was the latest of them when it was looked up (`AnswersOfInterleaving`). That it still is
   when the datagram has been handled, and that no worker ever comes by a freed binding,
   holds if and only if there is at most one worker or the pool offers nothing
   (`AlwaysNameLatestIff`, `NeverDanglesIff`).
4. Over every sequential run the server behaves like a server of stacks (`RunSimulated`),
   whose stacks are the offers not yet given back (`StacksAreOutstandingOffers`). An ACK
   confirms the latest of them (`AckConfirmsLatestOffer`), a REQUEST is answered if and only
   if there is one (`AnsweredIffOutstanding`), and addresses are never reused
   (`OffersIncrease`, `ExhaustedForGood`).
5. The parser accepts a buffer with a list exactly when the buffer starts with that list's
   serialisation and no id in it is END (`AcceptedIffSerialized`), and there both readers
   agree (`ScanAgreesWithParse`). What the scan makes of any other field is known too
   (`ScanOfAnyField`).
6. A datagram that is no BOOTREQUEST with a transaction id is dropped, and each type of the
   others comes to what `Dispatch` says of it (`UnreadIsDropped`, `DiscoverComesTo` and the
   following). Every reply is fixed byte by byte (`ReplyConveys`). In every interleaving, on
   any pool, each binding has the terms of the DISCOVER that was offered its address
   (`LeasesOfInterleaving`), and each datagram gets the reply its action calls for
   (`RepliesConveyed`).
7. Removal without the list head, clean-up during traversal, and the codec's list keep the
   heap well formed and do what their sequences say (`ListRemove`,
   `CleanupExpiredBindings`, `ParseOptionsToList`, `SerializeOptionList`).

Some expectations turn out not to hold. The code is modelled as it is, an input that fails
is given, and the exact condition is proved:

* `options.h` and section 9.6 of RFC 2132 number DHCPDECLINE 4; the dispatch handles a
  decline under 5. A DECLINE as the standard has it is ignored (`StandardDeclineIgnored`),
  so an address its client has declined stays bound to it (`StandardDeclineFails`). A binding
  is dropped if and only if type 5 names the newest address of its client
  (`DroppedIffTypeFive`).
* A client is granted what it was just offered if and only if its hardware address has six
  bytes, because REQUEST always searches for six (`OfferGrantedIffSixBytes`). With any other
  length the REQUEST after the first offer is not answered (`OfferNotGranted`), and what it
  is granted at all was never offered to it (`GrantedItsOwnIffSixBytes`, `GrantedAnothers`).
* A list survives serialising and parsing if and only if no id in it is END
  (`RoundTripIffNoEnd`); otherwise its front up to the first END comes back
  (`SerializeThenParse`).
* PAD is an option with a length byte here, unlike section 3.1 of RFC 2132. The parser
  agrees with a reader of the standard's format if and only if it takes no PAD for an option
  and, where it gives up, nothing more stands behind the PADs there
  (`AgreesWithStandardIff`); on a buffer it accepts, if and only if no id is PAD
  (`AcceptedAgreesIffNoPad`). A DISCOVER with one PAD in front of its type is refused by the
  parser and dropped by the dispatch (`PaddedDiscoverRefused`, `PaddedDiscoverDropped`). The
  dispatch finds the standard's type when the PADs in front of it come in pairs
  (`DispatchedAsStandard`); otherwise it does so only by what the scan happens to land on
  (`UnpairedYetRight`).
* The replies to INFORM and NACK have no cookie, so their options cannot be read
  (`NackUnreadable`, `InformUnreadable`).
* The scan for the message type acts on fields that the parser refuses, for want of a cookie
  or an END (`RefusedYetScanned`).
* With two or more workers a REQUEST can overtake the DISCOVER it follows, and goes
  unanswered (`OvertakenReached`, `InOrderIsAcked`). On every pool that offers an address a
  second decline finds the binding freed (`DanglingReached`), and an address just released
  is confirmed or released once more (`StaleReached`). On pools that end at 2^32 - 1 there
  are double offers (`CollisionReached`) and an endless scan (`SpinningReached`). Of
  insertions into the list nothing is lost if and only if none stores between load and
  store of another (`NothingLostIff`, `FirstStoreIsLost`).

## Reading the model

Addresses are in host order, so `htonl` and `ntohl` leave no trace. Times are unbounded
integers. A task carries what the environment will answer while it is handled: whether
`malloc` succeeds, and the time. A request has at most 16 bytes of hardware address in use,
the size of chaddr in section 2 of RFC 2131. Bytes that a reader loads from behind the
options field are arbitrary. A datagram arrives only while the queue has room, which the
program does not check. Inserting into the binding list and removing from it are single
steps of the thread model. A pointer to a binding is the number of the offer it was made
for; a worker whose binding has been freed has no next step, as C gives it no meaning, and
the others go on. In the heap layer a freed element may hold anything, and freeing twice or reading a
freed element breaks a precondition or an assertion.

## Model

| member | source | states |
|---|---|---|
| IntrusiveLists.List.constructor | queue.h:201-203 | an initialised list is well formed and empty |
| IntrusiveLists.List.InsertHead | queue.h:220-225 | the heap stays well formed and the element is prepended |
| IntrusiveLists.ListRemove | queue.h:227-234 | given the element alone, only its two neighbours are written, every back pointer still addresses the slot pointing to its element, and the sequence loses exactly this element |
| IntrusiveLists.TailQueue.Init | queue.h:464-467 | the head is a valid empty queue, whatever it held before |
| IntrusiveLists.TailQueue.InsertTail | queue.h:479-484 | the last-pointer addresses the final next slot again, one slot of the old queue is written, and the element is appended |
| OptionList.AppendOption | options.c:344-350 | a fresh copy is appended and the old elements stay in front of it |
| OptionList.SearchOption | options.c:319-331 | the first element with the id, or null exactly when none has it |
| OptionList.ParseOptionsToList | options.c:352-379 | verdict and appended options are those of the wire format, on failure too; the old list stays a prefix; a byte read behind the buffer has no influence |
| OptionList.SerializeOptionList | options.c:381-412 | succeeds exactly when 5 plus the wire size fits, writes the serialisation, and never writes outside the given length |
| OptionList.DeleteOptionList | options.c:415-428 | every element is freed, none twice, and the list is valid and empty |
| OptionFormat.AcceptedIffSerialized | options.c:352-379 | verdict 1 with list `os` if and only if the buffer starts with the serialisation of `os` and no id is END |
| OptionFormat.CookieAndEnd | options.c:359-376 | what is accepted starts with 63 82 53 63 and has FF behind its options; a buffer that starts otherwise has verdict 0 and no options |
| OptionFormat.OptionOnWire | options.c:381-412 | in a serialised list each option stands as id, length byte and data behind those in front of it, between the cookie and a final FF |
| OptionFormat.RejectedIff | options.c:359-378 | verdict 0 with list `os` if and only if the cookie is missing and `os` is empty, or `os` is encoded behind the cookie and what follows is cut off |
| OptionFormat.ParseThenSerialize | options.c:352-412 | an accepted buffer is reproduced byte for byte up to its END |
| OptionFormat.BytesBehindEndIgnored | options.c:365-376 | buffers that agree up to the END have the same verdict and list |
| OptionFormat.SerializeThenParse | options.c:352-412 | what comes back from a serialised list is its front up to the first END id |
| OptionFormat.RoundTripIffNoEnd | options.c:352-412 | the list comes back whole if and only if no id in it is END |
| MessageType.TypeOfIsFirst | server_connection.c:91-98 | the type of a list is the first data byte of its first non-empty option 53, and 0 without one |
| MessageType.ScanAgreesWithParse | server_connection.c:80-102 | on every field the parser accepts the scan yields the type of the parsed list |
| MessageType.ScanOfAnyField | server_connection.c:80-102 | on every field, with or without cookie, the scan yields the type named in front of the point where the parser's walk stops, and if none is named the data byte of a cut-off option 53 there |
| MessageType.RefusedYetScanned | server_connection.c:80-102 | two fields the parser refuses, without cookie and without END, that scan to any given type |
| MessageType.ScanSerialized | server_connection.c:80-102 | a serialised list scans to the type of its front up to the first END id, whatever bytes follow |
| MessageType.GetDhcpMessageType | server_connection.c:80-102 | the loop terminates, and on a field the parser accepts it loads no byte outside it and returns the type of the parsed list |
| StandardReader.AgreesWithStandardIff | options.c:365-376 | on a buffer with the cookie the parser agrees with the reader of RFC 2132 if and only if it meets no PAD as an option and gives up only where nothing but PADs stand in front of a cut-off option or the end |
| StandardReader.AcceptedAgreesIffNoPad | options.c:352-379 | on an accepted buffer the parser agrees with the reader of RFC 2132 if and only if no id of the list is PAD |
| StandardReader.DispatchedAsStandard | server_connection.c:80-102 | a field the reader of RFC 2132 accepts is dispatched on the type it finds, if the PADs in front of that type come in pairs |
| StandardReader.NoPadsArePaired | server_connection.c:80-102 | this covers every field the parser accepts without meeting PAD |
| StandardReader.UnpairedYetRight | server_connection.c:80-102 | a field with a single PAD on which the scan lands on the right type all the same |
| StandardReader.PaddedDiscoverRefused | options.c:365-376 | the bytes PAD, 53, 1, 1, END behind the cookie are a DISCOVER to the reader of RFC 2132 and refused by the parser |
| StandardReader.PaddedDiscoverDropped | server_connection.c:80-102 | with these bytes in an otherwise zeroed field a datagram changes nothing and is not answered |
| Words.WordAtBigEndian | server_connection.c:409-412 | the four stored bytes read back as the word, in two's complement for a negative one |
| Replies.WriteOfferOptions | server_connection.c:396-414 | the stores produce the serialised message type and lease time in a zeroed field |
| Replies.WriteAckOptions | server_connection.c:475-521 | the stores produce the five serialised options in a zeroed field |
| Replies.WriteInformOptions | server_connection.c:595-603 | the stores produce the field of the reply to an INFORM |
| Replies.WriteNackOptions | server_connection.c:630-633 | the stores produce the field of a NACK |
| Replies.OfferReadsBack | server_connection.c:396-414 | the parser accepts an OFFER and finds type 2 and the lease time; the scan returns 2 |
| Replies.AckReadsBack | server_connection.c:475-521 | the parser accepts an ACK and finds type 5, lease time, mask, router and DNS words, for all their values; the scan returns 5 |
| Replies.ReplyReadsBack | server_connection.c:382-521 | an OFFER or ACK carries the address its action is about and the request's xid, and its options parse and scan to the right type and the lease time |
| ReplyContents.ReplyConveys | server_connection.c:382-646 | for every action the reply is fixed in numbers: op, htype, hlen, xid, flags, yiaddr, siaddr, chaddr and all 312 option bytes; Silent, OfferLost, Declined and Released are not answered |
| ReplyContents.AckSays | server_connection.c:475-521 | the parser finds in an ACK type 5, the lease time, mask 255.255.255.0, the configured router and DNS server 8.8.8.8 |
| ReplyContents.NackUnreadable | server_connection.c:630-633 | the parser refuses a NACK's options and the scan finds no type in them |
| ReplyContents.InformUnreadable | server_connection.c:595-603 | the parser refuses the options of the reply to an INFORM, and the scan finds a type exactly when the DNS server's address starts with 53 and a number other than 0 |
| Bindings.SearchIsFirst | ip_pool_manager.c:115-128 | nothing in front of the found binding matches |
| Bindings.FirstIsSearch | ip_pool_manager.c:115-132 | a match with no match in front of it, or the end of a list without one, is what the search yields |
| Bindings.SearchMeans | ip_pool_manager.c:115-128 | up to the position found, exactly the found binding has the identifier, the kind unless 2 was asked for, and the status unless 0 was |
| Bindings.OverdueChanges | ip_pool_manager.c:78-83 | of a binding only the status changes, from 2 to 3, and only after more than 3600 seconds |
| Bindings.DropExpiredKeeps | ip_pool_manager.c:90-105 | what the clean-up keeps stood at increasing positions, and these are exactly those of the bindings that are not EXPIRED |
| Bindings.MaintainKeepsSurvivors | ip_pool_manager.c:73-105 | a maintenance round keeps, unchanged and in order, what is neither EXPIRED nor PENDING for more than an hour |
| Bindings.MaintainTwice | ip_pool_manager.c:73-105 | a round at t1 and one at a later t2 amount to the one at t2 |
| BindingTable.AddBinding | ip_pool_manager.c:36-58 | a PENDING binding is entered at the head, or null is returned and the list left alone when calloc fails |
| BindingTable.RemoveBinding | ip_pool_manager.c:60-71 | the element is freed and the list loses exactly its binding |
| BindingTable.SearchBinding | ip_pool_manager.c:107-133 | the element of the first match, or null |
| BindingTable.UpdateBindingsStatuses | ip_pool_manager.c:73-88 | exactly the overdue PENDING bindings become EXPIRED, in place |
| BindingTable.CleanupExpiredBindings | ip_pool_manager.c:90-105 | each original element is visited once, in order and before it is freed; the expired ones are freed and the rest stays in order |
| Leases.ScanOutcomeIs | server_connection.c:297-303 | the scan over a wrapping loop variable has one outcome, however many probes it is watched for |
| LeaseInvariant.FirstProbeFinds | server_connection.c:294-306 | in an invariant state the scan stops at its first probe with the next address, up to a pool end of 2^32 - 1 |
| LeaseInvariant.DiscoverOffersNext | server_connection.c:344-377 | DISCOVER offers exactly the next address while one is left, to the client's chaddr and for the configured time from now, keeps the invariant, and changes nothing else |
| LeaseInvariant.MaintainLeavesAlone | ip_pool_manager.c:73-105 | maintenance never drops a binding the server handed out, however old |
| LeaseInvariant.ReactKeepsInv | server_connection.c:651-712 | every datagram is reacted to and keeps addresses distinct, ordered, dynamic and within the offered part of the pool |
| LeaseInvariant.EveryRunCompletes | server_connection.c:651-712 | from the start state of config_reader.c no run hangs, for any pool |
| Dispatch.UnreadIsDropped | server_connection.c:654-671 | without a BOOTREQUEST, a transaction id and received bytes a datagram changes nothing and is not answered |
| Dispatch.UnknownTypeIsDropped | server_connection.c:673-706 | nor does one of a type other than 1, 3, 5, 6, 7 and 8 |
| Dispatch.DiscoverComesTo | server_connection.c:344-377 | type 1: the next address enters the list in front with chaddr up to hlen, status 1, not static, from now for the configured time; nothing when the pool is used up, and only the cursor moves when malloc fails |
| Dispatch.RequestComesTo | server_connection.c:444-510 | type 3: the top of the stack of six bytes of chaddr is confirmed, and the mask and DNS words become 255.255.255.0 and 8.8.8.8 |
| Dispatch.DeclineComesTo | server_connection.c:548-561 | type 5: exactly the client's first associated binding is removed, if its address is yiaddr |
| Dispatch.ReleaseComesTo | server_connection.c:566-580 | type 7: exactly the client's first associated binding gets status 4 and lease end 0, if its address is ciaddr |
| Dispatch.InformComesTo | server_connection.c:696-703 | type 8 is answered with the DNS server and type 6 with a NACK, and neither changes anything |
| ClientStacks.SearchFindsTop | ip_pool_manager.c:115-128 | the search for an associated binding yields the top of the client's stack, or nothing when it is empty |
| ClientStacks.MaintenanceKeepsStacks | ip_pool_manager.c:73-105 | maintenance leaves every client's stack alone, on any list |
| ClientStacks.DiscoverSimulated | server_connection.c:344-377 | DISCOVER pushes on one stack and acts as the server of stacks does |
| ClientStacks.RequestSimulated | server_connection.c:444-460 | REQUEST answers with the top of the stack under six bytes of chaddr, and only with that |
| ClientStacks.DeclineSimulated | server_connection.c:548-564 | a decline pops only the top of its client's stack, and only when it names it |
| ClientStacks.ReleaseSimulated | server_connection.c:566-583 | a release pops only the top of its client's stack, and only when it names it |
| ClientStacks.ReactMovesStack | server_connection.c:651-712 | each event pushes, pops or leaves a stack as its action says, and leaves all other clients' stacks alone |
| ClientStacks.RunSimulated | server_connection.c:651-712 | over every run, maintenance at any point, the server and the server of stacks take the same actions |
| LeaseHistory.StacksAreOutstandingOffers | server_connection.c:344-377 | after any run each stack is the client's offers not given back since, newest first |
| LeaseHistory.CursorCountsOffers | server_connection.c:294-306 | the number of offers, lost ones included, is how far the cursor has come |
| LeaseHistory.OfferIsNext | server_connection.c:294-306 | the n-th offer of a run is the n-th address behind the first |
| LeaseHistory.OffersIncrease | server_connection.c:294-306 | offered addresses strictly increase over a run and lie above the first and not above the last one |
| LeaseHistory.ExhaustedForGood | server_connection.c:350-354 | once the last address is out nothing is ever offered again, whatever is given back |
| LeaseHistory.AckConfirmsLatestOffer | server_connection.c:444-472 | every ACK carries the latest outstanding offer to its six-byte client, offered once in the whole run |
| LeaseHistory.AnsweredIffOutstanding | server_connection.c:453-460 | a REQUEST is answered if and only if some offer to the first six bytes of its chaddr is outstanding |
| LeaseHistory.GivenBackIffLatest | server_connection.c:548-583 | a decline or release takes effect if and only if it names the latest outstanding offer to its client |
| LeaseTerms.ConfigOfRun | server_connection.c:493-510 | over every run the configuration is the initial one until the first ACK, which sets mask and DNS server for good |
| LeaseTerms.InformOfRun | server_connection.c:585-603 | over every run an INFORM is answered with the configured DNS server before the first ACK and with 8.8.8.8 after it |
| LeaseTerms.LeasesOfRun | server_connection.c:363-377 | over every run each binding belongs to the client of the DISCOVER that was offered its address, began then, and ends after the configured time, or at 0 when released |
| ClientView.DispatchedOnOptions | server_connection.c:654-673 | a BOOTREQUEST with a transaction id and well-formed options is dispatched on the type they name, and any other datagram on none |
| ClientView.StandardDeclineIgnored | server_connection.c:687-706 | a message of type 4, DHCPDECLINE, changes nothing and is not answered |
| ClientView.StandardDeclineFails | server_connection.c:687-706 | a run in which a client declines its newest address with type 4 and stays bound to it, on every pool that offers one |
| ClientView.DroppedIffTypeFive | server_connection.c:548-561 | a binding is dropped if and only if a type 5 message names its client's newest address |
| ClientView.OfferGrantedIffSixBytes | server_connection.c:453-472 | REQUEST after DISCOVER is granted the offered address if and only if hlen is 6 |
| ClientView.OfferNotGranted | server_connection.c:453-472 | a run in which a client with any other hlen is offered an address and its REQUEST is not answered, on every pool that offers one |
| ClientView.GrantedItsOwnIffSixBytes | server_connection.c:453-472 | what an ACK grants was offered to the hardware address that asked if and only if hlen is 6 |
| ClientView.GrantedAnothers | server_connection.c:453-472 | a run in which a client with any other hlen is granted what was offered to the client with its first six bytes |
| ClientView.NeverOfferedAgain | server_connection.c:548-583 | after an address was declined or released only larger ones are offered, to anybody |
| DhcpServer.DhcpServer.IsIpAvailable | server_connection.c:275-292 | true exactly for addresses in the pool's range that no binding holds |
| DhcpServer.DhcpServer.OfferIpAvailable | server_connection.c:294-306 | returns the outcome of the wrapping scan, 0 for none, and moves the cursor to what it found |
| DhcpServer.DhcpServer.SendDhcpOffer | server_connection.c:344-430 | on the heap, the state of DISCOVER in the lease machine, and its reply byte by byte |
| DhcpServer.DhcpServer.SendDhcpAck | server_connection.c:444-546 | on the heap, the state of REQUEST in the lease machine, the two configuration words it overwrites included, and its reply byte by byte |
| DhcpServer.DhcpServer.SendInformReply | server_connection.c:585-618 | the reply to an INFORM byte by byte; nothing changes |
| DhcpServer.DhcpServer.SendDhcpNack | server_connection.c:620-646 | the NACK byte by byte; nothing changes |
| DhcpServer.DhcpServer.HandleDhcpDecline | server_connection.c:548-564 | on the heap, the step of a decline; the binding's element is freed |
| DhcpServer.DhcpServer.HandleDhcpRelease | server_connection.c:566-583 | on the heap, the step of a release; the binding is updated in place |
| DhcpServer.DhcpServer.HandleClient | server_connection.c:651-712 | the dispatch computes one step of the lease machine and sends its reply byte by byte; what is no BOOTREQUEST with a transaction id leaves the state and is not answered |
| TaskQueue.TaskQueue.Submit | server_connection.c:48-54 | the task is appended to the pending ones |
| TaskQueue.TaskQueue.Take | server_connection.c:67-72 | the shifting loop takes out the oldest task and keeps the others in order |
| WorkerLoop.Worker.Serve | server_connection.c:48-76 | with datagrams submitted at any point of the loop, the tasks handled, in hand and pending are the old and the submitted ones in order, the heap and the replies are those of the lease machine run on the handled ones, and their number is fixed by the turns |
| WorkerLoop.FinishesAll | server_connection.c:58-76 | with nothing submitted, two turns for each pending task finish them all |
| ThreadOrder.WorkKeepsLocks | server_connection.c:48-73 | a worker enters a locked region only when it is free, and each mutex has at most one holder |
| ThreadOrder.ReachedSound | server_connection.c:48-76 | in every interleaving, any number of workers: mutual exclusion, queue in arrival order, and every task taken is handled once or in one worker's hands |
| ThreadOrder.OrderKept | server_connection.c:48-76 | each single step of any thread keeps arrival order and loses no task |
| ThreadWakeup.WorkKeepsWakeups | server_connection.c:62-73 | no step of a worker leaves more tasks than woken workers and an owed signal while another sleeps |
| ThreadWakeup.ReachedNoLostWakeup | server_connection.c:48-73 | in every reachable state with a sleeper, tasks are at most the woken workers plus the owed signal, spurious wakeups included |
| ThreadAddresses.ProbeKeepsAddresses | server_connection.c:294-306 | moving the cursor inside the lock keeps listed and pending addresses distinct |
| ThreadAddresses.RecordKeepsAddresses | server_connection.c:363-377 | entering a pending address without a lock keeps them distinct |
| ThreadAddresses.ReachedSafe | server_connection.c:294-377 | any number of workers, any interleaving: listed and pending addresses are distinct, above the first and not beyond the cursor, unless the scan can wrap around |
| ThreadProgress.InternalRunsEnd | server_connection.c:48-76 | between two arrivals the threads take a bounded number of steps, where the scan cannot wrap around or address 0 is free to end it |
| ThreadProgress.NeverStuck | server_connection.c:48-76 | a state that has not halted and keeps exclusion, order and wakeups has a step of a thread, any number of workers and any pool |
| ThreadProgress.ComesToHalt | server_connection.c:48-76 | the threads can halt by themselves, where the scan cannot wrap around or address 0 is free to end it |
| ThreadProgress.NoDatagramLeftBehind | server_connection.c:48-76 | from any reachable state, on any pool, a run of the threads by themselves stops only where each datagram that arrived was handled once or is in the hands of a worker with a freed binding, the queue being empty unless all workers are such |
| ThreadSequential.OneWorkerIsSequential | server_connection.c:48-76 | with one worker, arrived datagrams are the handled, the one in work, the queue and the one in hand, in this order, and state, actions and replies are those of the sequential run on the handled ones |
| ThreadSequential.FinishIsSequential | server_connection.c:651-712 | a worker finishing a datagram is one step of the sequential machine |
| ThreadOvertaking.OvertakenReached | server_connection.c:58-76 | with two or more workers on any pool, a run in which a REQUEST is handled before the DISCOVER it follows and is not answered |
| ThreadOvertaking.InOrderIsAcked | server_connection.c:344-472 | the same two datagrams in order end with the ACK of the offered address |
| ThreadOvertaking.HandledInOrderIff | server_connection.c:48-76 | the handled datagrams are the first ones that arrived, in order, in every reachable state if and only if there is at most one worker |
| ThreadSequential.RepliesFollowActions | server_connection.c:382-414 | at any point of a run equal actions mean equal replies |
| ThreadCollision.CollisionReached | server_connection.c:294-306 | two or more workers on a pool ending at 2^32 - 1 reach a state in which two offer the same address |
| ThreadCollision.NoDoubleOfferIff | server_connection.c:294-377 | no interleaving offers an address to two clients at once, if and only if the scan of a second worker cannot wrap around |
| ThreadHistory.OffersOfInterleaving | server_connection.c:294-377 | any number of workers where the scan cannot wrap around: all offers of the record, lost ones included, and those under way are distinct, inside the pool, and as many as the cursor has come |
| ThreadHistory.StacksOfInterleaving | server_connection.c:344-583 | any number of workers where the scan cannot wrap around, look-up and use of a binding being two steps: each client's stack is its outstanding offers in the record, newest first |
| ThreadHistory.AnswersOfInterleaving | server_connection.c:444-583 | any number of workers where the scan cannot wrap around: every ACK, decline and release in the record is about what was the latest outstanding offer to its client when its handler looked it up, offered once |
| ThreadBindings.AnswersWereOffered | server_connection.c:444-583 | any number of workers on any pool: every ACK, decline and release in the record is about an address offered to the same client before it was looked up |
| ThreadStale.DanglingReached | server_connection.c:548-561 | two or more workers on any pool that offers an address: a run in which a worker is about to go on with a binding that another one has removed |
| ThreadStale.StaleReached | server_connection.c:453-577 | under the same conditions, a run whose record ends with a release and then the ACK, or a second release, of the same address |
| ThreadStale.NeverDanglesIff | server_connection.c:453-577 | no worker ever holds a binding that has left the list, if and only if there is at most one worker or the pool offers nothing |
| ThreadStale.AlwaysNameLatestIff | server_connection.c:453-577 | every ACK, decline and release is about the latest outstanding offer to its client when it is recorded, if and only if there is at most one worker or the pool offers nothing |
| ThreadStale.AlwaysCanRestIff | server_connection.c:48-76 | with at least one worker: from every reachable state the threads can get to where everything is handled, if and only if there is one worker or the pool offers nothing |
| ThreadTerms.RepliesConveyed | server_connection.c:382-646 | any number of workers on any pool: each datagram handled got the reply its action conveys, byte by byte, in the configuration of the start, an INFORM with 8.8.8.8 once there was an ACK |
| ThreadTerms.LeasesOfInterleaving | server_connection.c:363-377 | any number of workers on any pool: each binding has the client, begin and end of the DISCOVER that was offered its address, or status 4 and end 0 |
| ThreadHistory.NeverOfferedTwiceIff | server_connection.c:294-377 | over all runs no address is offered twice, if and only if the scan of a second worker cannot wrap around |
| ThreadHang.SpinningReached | server_connection.c:294-306 | two or more workers on a pool ending at 2^32 - 1 and not starting at 0 reach a state in which a worker scans a pool without a free address |
| ThreadHang.SpinsForGood | server_connection.c:297-303 | from there no number of steps of the threads leads to a halt |
| ThreadHang.SettlesIff | server_connection.c:48-76 | the threads halt after a bounded number of steps from every reachable state if and only if there is at most one worker, or the pool ends before 2^32 - 1, offers nothing, or starts at 0 |
| UnlockedInsert.NothingLostIff | queue.h:220-225 | any number of unlocked insertions in any interleaving: in the end the list holds the old bindings and the new ones, each once, if and only if none stored the head between load and store of another |
| UnlockedInsert.FirstStoreIsLost | queue.h:220-225 | of two insertions that both load first, the one that stores first is lost |

## Left out

- Sockets, sendto and recvfrom, logging, printing, file descriptors and the set-up in main: input and output only. The failure of a send, on which the ACK handler ends the process, goes with them.
- read_config_dhcp and config.sh: only the initial pool of config_reader.c:42-44 is taken over.
- The fields of a reply that stay zero (hops, secs, ciaddr, giaddr, sname, file) and the broadcast address it is sent to.
- new_dynamic_binding and take_free_address: nothing calls them, and their cursor means something else.
- find_binding and the text parsers of options.c with their name table: not on the way of any datagram.
- SLIST, SIMPLEQ and the other unused macros of queue.h.
- A hardware address length above 16, with which memcpy would run over the end of chaddr.
- HandleClient: for a state on which the scan for an address would not end it promises nothing; EveryRunCompletes shows that no sequential run gets there, SpinningReached that several workers can.
- The stores inside remove_binding, and back pointers, when two workers change the list at once: both list operations are single steps of the thread model. UnlockedInsert takes the insertions apart, on their own.
- The loads inside a search while another worker changes the list, and a change between comparing a found binding's address and using it: looking up is one step and going on is one.
- What C does when a freed binding is used, or its memory is used again for a new one: the worker has no further step.
- The overlay of the message on the receive buffer: a request is a record whose options field has 312 bytes and two arbitrary ones behind it.
- Liveness under an unfair scheduler: the bounded-run theorems count steps of all threads together.
