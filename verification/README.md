# Mailschleuse: a verified model

Mailschleuse is a mail sink. Applications submit mail over SMTP, it lands in capped
mailboxes with a change feed and an optional mirror on disk, and test suites or people
fetch it over POP3 or look at it in a browser. This project models the parts of it where
state, formats and interleaving meet, and proves what they promise each other.

- **The store** (`StoreModel`, `StoreRuns`, `Events`, `Fanout`, `Mailboxes`, `Stores`,
  `Running`, `Listening`). Queues and index as values with every operation as a function; whole runs
  with a ledger of where each delivery ended up; the events and what a listener can rebuild
  from them; and the running store, whose queues are arrays shifted in place and whose
  index shares the message objects. Every method of the running store is tied to the value
  it leads to, the events it publishes and the file steps it takes, so what is proved of
  the values over whole runs holds of the running store (`Running.RunAll`), listeners
  included (`Listening.Listen`).
- **The disk mirror** (`Disk`, `Recovery`, `Atomicity`, `Restart`, `Loading`, `Lifetimes`,
  `Directory`, `PersistenceIO`). The directory is a map of files; every operation is a list of steps
  (write a temporary file, rename it, remove a file); a crash stops between two steps or
  inside a write. A message is visible when its body and its metadata are both there;
  `Directory` is about the files themselves.
  `Lifetimes` strings runs, crashes and loads together over one directory, and the running
  store loads what it finds (`Stores.NewStore`, `Running.Live`).
- **The wire** (`Wire`, `Chunks`, `WireIO`). Dot-stuffing as POP3 writes it (section 3 of RFC
  1939) and as SMTP reads it (section 4.5.2 of RFC 5321), over all octet strings; and the
  buffered line reader with everything it leaves unread.
- **POP3** (`Maildrop`, `Pop3`, `Pop3Runs`, `Pop3Login`, `Pop3Numbers`, `Pop3Server`, `Pop3Host`). Any number of
  sessions take steps in any order, with each other and with everybody who changes the store
  (sections 4, 5 and 6 of RFC 1939). PASS is two steps, lock and snapshot; UPDATE is one step for
  each entry. An action that cannot happen when its turn comes does not happen, so every
  list of actions is a run. `Pop3Host` schedules the running handlers the same way, over any
  open store, and says what each client is told.
- **SMTP** (`Smtp`, `SmtpPaths`, `Auth`, `SmtpRuns`, `SmtpDelivery`, `SmtpStream`, `SmtpServer`,
  `Routing`, `RoutingOrder`, `Routes`). The transaction machine, explained by the dialogue alone: commands and reply
  codes; how one stream of octets comes to a dialogue, pipelining (RFC 2920) and payloads
  included; and the loop that runs it on the running store.
- **Printers and parsers** (`Headers`, `Overrides`, `Precedence`, `Transfer`, `Mime`, `Text`). Header
  blocks, base64, line endings and the numbering of MIME parts.

## What the model takes as given

- The ID source never repeats an ID; where restart and crashes are concerned it also rises,
  and the theorems say where (`FreshRun`, `RisingRun`, `Newest`). IDs are natural numbers
  whose order is the order of the fixed-width strings.
- Mailbox names are distinct and the default mailbox exists.
- Metadata files decode to what was encoded. File operations succeed.
- For files and events, store operations run one at a time.
- Characters stand for single octets of the UTF-8 form, in protocol text as in header names;
  white space is Unicode white space as UTF-8 encodes it (`Text.BlankAt`), so a lone octet
  0x85 or 0xA0 is none.

## Where the code keeps less than its comments say

- The comment at `internal/store/persist.go:106` says that sorting IDs restores delivery
  order. Within one millisecond the rest of an ID is random, so two deliveries can come back
  swapped (`Restart.OrderLostWithinAMillisecond`). `Restart.RestartIff` and the theorems of
  `Atomicity` give the exact conditions.
- A line that ends in a bare CR loses it if it is the last line of the message; all other
  lines keep theirs (`Wire.EndToEndExactIff`).
- The comment at `internal/web/compose.go:42` says that the generated header fields must not
  be overridden through the free-form ones. A free-form name is trimmed and compared as a
  whole, so `Subject:x` passes and is read as a second Subject (`Overrides.OverrideByColon`);
  so does a name with a line break (`Headers.OverrideByLineBreak`), one whose second line
  continues the Subject, and one with a blank line, which loses the fields behind it. The
  exact conditions are `Overrides.RespectedIffColonsBehindFreeNames` for names without a line
  feed, `Overrides.RespectedIffHarmless` for names without a blank line, and
  `Overrides.RespectedIff` for all. A second field does not win by itself: the reader takes
  the first one of a name. So `Subject:x` changes nothing that is found, while `Content-Type:x`
  and, without a Cc, `Cc:x` do (`Precedence.PrevailsIff`).
- Clearing a mailbox and marking all of it take file steps for each message, so a crash can
  leave part of the work done (`Atomicity.HalfCleared`, `Atomicity.HalfMarked`), exactly when
  more than one message is there, or unread (`Atomicity.ClearAtomicIff`,
  `Atomicity.MarkAllAtomicIff`).
- The comment at `internal/smtpd/server.go:483` says that an oversized message is drained to
  keep the session in step. That holds of messages over the size limit. A line over the line
  limit ends DATA without a reply and without a reset (`SmtpDelivery.DataAnsweredIff`), and the
  rest of the payload is read as commands (`SmtpStream.PayloadIsNoCommandIff`,
  `SmtpStream.ReadInsidePayload`).

## Model

| member | source | states |
|---|---|---|
| `StoreModel.DeliverAgrees` | internal/store/store.go:231-292 | Delivery with eviction keeps the index the exact disjoint union of the queues, each message under the mailbox that holds it |
| `StoreModel.DeleteAgrees` | internal/store/store.go:442-464 | Deleting one message keeps index and queues in agreement, whichever position it had |
| `StoreModel.ClearAgrees` | internal/store/store.go:467-488 | Clearing takes exactly the mailbox's IDs out of the index |
| `StoreModel.ApplyAgrees` | internal/store/store.go:231-488 | Every operation keeps agreement of index and queues, keeps every queue within the cap and adds or removes no mailbox |
| `StoreRuns.ApplyAccounted` | internal/store/store.go:231-488 | One operation keeps the books: each queue is the in-order rest of its deliveries, and a message that is gone left in exactly one way |
| `StoreRuns.RunInvariant` | internal/store/store.go:231-488 | Over every run with fresh IDs: agreement, cap and books hold together |
| `StoreRuns.Conservation` | internal/store/store.go:231-488 | Deliveries ever made equal present plus evicted plus deleted plus cleared, over every run |
| `StoreRuns.StatsAddUp` | internal/store/store.go:212-228 | The totals of the statistics count every indexed message exactly once |
| `StoreRuns.CountsAppend` | internal/store/store.go:212-228 | One more message adds one unread if it is unread, and its octets |
| `Events.Follow` | internal/store/store.go:231-276 | The events of one operation carry a listener's view of each mailbox (IDs, order, read flags) to the new state |
| `Events.ReactUpdates` | internal/store/store.go:416-439 | One update per unread message turns a listener's rows into the all-read rows |
| `Events.DeliveryAnnounces` | internal/store/store.go:270-275 | A delivery announces each eviction, oldest first, and then the new message, as unread |
| `Events.MarkAnnounces` | internal/store/store.go:397-413 | A flag is announced if and only if it changes |
| `Events.UpdatesAnnounce` | internal/store/store.go:416-439 | Marking all announces each message that was unread, oldest first |
| `Events.ReplayRebuilds` | internal/store/store.go:231-520 | Folding all events of any operations, from any agreeing store on, gives IDs, order and read flags of the final store |
| `Fanout.Hub.Subscribe` | internal/store/store.go:492-498 | A new listener gets a new open empty channel under the next identifier |
| `Fanout.Hub.Unsubscribe` | internal/store/store.go:499-506 | Closes the channel the first time and does nothing the second |
| `Fanout.Hub.Publish` | internal/store/store.go:511-520 | Offers the event to every subscribed channel, all of them open, and stores it unless 64 are pending |
| `Fanout.Hub.PublishEach` | internal/store/store.go:270-275 | Publishes one event after another: what has happened since is exactly these publications |
| `Fanout.Hub.Receive` | internal/store/store.go:492-498 | The next event that the history says the listener has heard and not received, from a closed channel as well |
| `Fanout.PendingIsBounded` | internal/store/store.go:492-520 | Over every history a listener has received at most what it heard, and at most 64 events wait |
| `Fanout.HeardInOrder` | internal/store/store.go:511-520 | Over every history what a listener hears is, in order, what was published at the positions where its channel was open and not full |
| `Fanout.HeardAtRises` | internal/store/store.go:511-520 | Those positions rise, and a publication during the subscription is missing if and only if 64 events were pending then |
| `Fanout.HeardAllIff` | internal/store/store.go:511-520 | A listener hears everything published during its subscription if and only if no publication found 64 events pending |
| `Fanout.OfferedSince` | internal/store/store.go:492-520 | While it is subscribed, that is everything published since it subscribed |
| `Fanout.NothingAfterClosing` | internal/store/store.go:499-520 | No publication reaches a channel after it was closed |
| `Fanout.Happen` | internal/store/store.go:492-520 | Every legal history of subscribing, cancelling, publishing and receiving happens at the hub, whose channels then hold what it says |
| `Listening.AfterPublications` | internal/store/store.go:511-520 | A listener in force is offered everything that one operation publishes, and no subscription changes by it |
| `Listening.ListenerKeepsUp` | internal/store/store.go:231-520 | Whatever the store and its listeners do: what a listener has heard, folded on the rows it saw when it joined, is the final store, as long as it stays and no event found its channel full |
| `Listening.TakeTurns` | internal/store/store.go:231-520 | Any operations and any joining, leaving and receiving at the running store lead to the store and the history of the value level |
| `Listening.Listen` | internal/store/store.go:231-520 | The same of a listener of the running store |
| `Disk.WriteAtomically` | internal/store/persist.go:78-84 | The temporary file and the rename leave the new content and no temporary file |
| `Disk.SaveNewReads` | internal/store/persist.go:47-69 | A new message becomes readable with the fourth step of its write and not before; no other message is affected |
| `Disk.SaveAgainReads` | internal/store/persist.go:47-69 | Rewriting metadata switches from the old flag to the new with its second step |
| `Disk.RemoveAllReads` | internal/store/persist.go:71-74 | After k steps of a series of removals exactly the first (k+1)/2 messages are unreadable |
| `Disk.CrashReads` | internal/store/persist.go:78-84 | A half-written temporary file never changes what can be read |
| `Disk.ListingFacts` | internal/store/persist.go:88-116 | Loading lists exactly the readable messages (both files present), by rising ID |
| `Disk.ListingRestoresIff` | internal/store/persist.go:106-116 | A mirrored queue is loaded in its order if and only if its IDs ascend |
| `Recovery.DeliverCrash` | internal/store/persist.go:47-74 | The directory after every step of a delivery and its evictions, for every mailbox |
| `Recovery.DeleteCrash` | internal/store/persist.go:71-74 | A deletion takes effect on disk with its first step |
| `Recovery.MarkReadCrash` | internal/store/persist.go:47-69 | A flag change takes effect on disk with its last step |
| `Recovery.ClearCrash` | internal/store/persist.go:71-74 | In the middle of clearing, the oldest messages are gone and the rest is intact; other mailboxes are untouched |
| `Recovery.MarkAllCrash` | internal/store/persist.go:47-69 | In the middle of marking all, exactly the oldest k/2 unread messages are marked; other mailboxes are untouched |
| `Recovery.OpMirrors` | internal/store/persist.go:47-74 | Every completed operation leaves exactly the stored messages readable, with flags and octets |
| `Recovery.LoadedOnDisk` | internal/store/persist.go:88-124 | After loading, exactly the loaded messages are readable on disk; the files themselves are in `Directory.LoadedFilesAre` |
| `Recovery.LoadCrashIdempotent` | internal/store/persist.go:88-124 | Loading can stop anywhere in its own removals; the next load brings up the same queue, whatever the directory held |
| `Recovery.CrashAtomic` | internal/store/persist.go:47-124 | Delivery, deletion and marking, stopped anywhere, are recovered as the store before or the store after, when IDs ascend |
| `Atomicity.DeliveryAtomicIff` | internal/store/persist.go:88-124 | Delivery is crash-atomic if and only if the grown queue's IDs ascend, or the cap is one and one message was there |
| `Atomicity.DeleteAtomicIff` | internal/store/persist.go:71-124 | Deletion is crash-atomic if and only if the queue's IDs ascend |
| `Atomicity.MarkReadAtomicIff` | internal/store/persist.go:47-124 | Changing one flag is crash-atomic if and only if the queue's IDs ascend |
| `Atomicity.ClearAtomicIff` | internal/store/persist.go:71-124 | Clearing is crash-atomic if and only if at most one message is there |
| `Atomicity.HalfCleared` | internal/store/persist.go:71-124 | Otherwise a crash state exists whose load is neither the queue nor empty |
| `Atomicity.MarkAllAtomicIff` | internal/store/persist.go:47-124 | Marking all is crash-atomic if and only if the IDs ascend and at most one message is unread |
| `Atomicity.HalfMarked` | internal/store/persist.go:47-124 | With two unread messages a crash state exists whose load is neither the queue nor the queue all read |
| `Atomicity.AtomicIff` | internal/store/persist.go:47-124 | For the store as a whole: crash-atomic if and only if the IDs of the other mailboxes ascend and the operation is so in its own |
| `Restart.RunMirrors` | internal/store/persist.go:47-74 | After every run of completed operations the directory mirrors the store |
| `Restart.RestartIff` | internal/store/persist.go:88-124 | Loading after a run restores a mailbox exactly if and only if its IDs are in delivery order |
| `Restart.RestartExact` | internal/store/persist.go:88-124 | With rising IDs, loading with any cap gives exactly the newest messages, and nothing else can be read; the files themselves are in `Directory.RestartIsExact` |
| `Restart.CrashAfterRun` | internal/store/persist.go:47-124 | A crash in a delivery, deletion or flag change after any run is recovered as the state without it or with it |
| `Restart.OrderLostWithinAMillisecond` | internal/store/persist.go:106-107 | Two deliveries whose IDs came out in the other order: loading swaps them |
| `Loading.LoadedReads` | internal/store/persist.go:88-124 | Loading the mailboxes one after another leaves in each exactly what it keeps of it, and touches no other |
| `Loading.LoadedWholeBoxes` | internal/store/persist.go:88-124 | The loaded queues are those of each mailbox loaded on its own: the loads do not interfere |
| `Loading.LoadedMirrors` | internal/store/persist.go:88-124 | After loading the directory mirrors the store, every queue is within the cap and in ID order, whatever the directory held |
| `Loading.LoadedIndex` | internal/store/persist.go:115-121 | The loaded index: an ID leads to the last mailbox that lists it if that one keeps it, and nowhere otherwise |
| `Loading.LoadedAgreesIff` | internal/store/persist.go:88-124 | Index and queues agree after loading if and only if no kept ID is readable in a mailbox loaded later |
| `Lifetimes.StepKeeps` | internal/store/persist.go:47-124 | Operation, crash, stop, load and interrupted load each keep: agreement, mirror, cap, ID order, one mailbox for each ID |
| `Lifetimes.LivesKeep` | internal/store/persist.go:47-124 | So does every sequence of lives over one directory |
| `Lifetimes.LifeIs` | internal/store/persist.go:88-124 | A life is the value-level run from the loaded store over the directory that loading left |
| `Lifetimes.StopThenLoad` | internal/store/persist.go:88-124 | Stopping and loading brings back the same store, index included |
| `Lifetimes.DiesBetween` | internal/store/persist.go:47-124 | A crash in any operation is loaded as the mailboxes before or after it, or, for clearing and marking all, a part of the way |
| `Lifetimes.LoadDiesSame` | internal/store/persist.go:88-124 | Wherever loading all mailboxes is interrupted, loading again brings up the same ones |
| `Lifetimes.NextLife` | internal/store/persist.go:47-124 | Crash in any operation, any interrupted loads, one that succeeds: the next life begins with such mailboxes, and all invariants hold |
| `Directory.DeletedFiles` | internal/store/persist.go:71-74 | A completed deletion takes exactly the two files of the message out of the directory, whatever else is there |
| `Directory.TakenOutLeavesNoFile` | internal/store/persist.go:47-74 | Whatever an operation takes out of the store (deleted, cleared, evicted) leaves neither of its files |
| `Directory.ExactAfter` | internal/store/persist.go:47-74 | If the files are exactly the two of each stored message, they are so after every completed operation |
| `Directory.RunKeepsExact` | internal/store/persist.go:47-74 | And after every run of operations |
| `Directory.RunIsExact` | internal/store/persist.go:47-74 | Over every run from an empty directory the files are exactly the two of each stored message: nothing is left over and nothing is missing |
| `Directory.DeletionStopped` | internal/store/persist.go:71-74 | A deletion that a crash stops leaves the directory as it was, or without the body, or without both files |
| `Directory.LoadedFilesAre` | internal/store/persist.go:88-124 | Whatever the directory holds, loading removes both files of each readable message it does not keep, and touches no other file |
| `Directory.DiscardedLeavesNoFile` | internal/store/persist.go:118-122 | What loading discards leaves neither of its files |
| `Directory.LoadKeepsExact` | internal/store/persist.go:88-124 | Loading an exact directory with any cap leaves an exact directory |
| `Directory.RestartIsExact` | internal/store/persist.go:88-124 | After any run and a restart with any cap, the files are exactly the two of each message that was loaded |
| `PersistenceIO.Persistence.WriteFileAtomic` | internal/store/persist.go:78-84 | Takes exactly the two steps write and rename |
| `PersistenceIO.Persistence.Write` | internal/store/persist.go:47-69 | Takes the steps of a save: the body only if it is not there yet, then the metadata |
| `PersistenceIO.Persistence.RemoveMessage` | internal/store/persist.go:71-74 | Takes exactly the two removal steps, body first, and leaves the directory without the two files |
| `PersistenceIO.Persistence.ReadMessage` | internal/store/persist.go:126-154 | Yields a message if and only if both files are readable, with ID and mailbox from the path |
| `Mailboxes.Mailbox.Append` | internal/store/store.go:252-252 | Appends behind the end, in the same array while there is room |
| `Mailboxes.Mailbox.RemoveAt` | internal/store/store.go:451-456 | Shifts the later messages down in the same array; the queue is the old one without position `at` |
| `Mailboxes.Mailbox.RemoveID` | internal/store/store.go:451-456 | Removes the first message with the ID and nothing else, in place |
| `Mailboxes.Mailbox.Evict` | internal/store/store.go:280-292 | Returns the messages over the cap and keeps the rest, in a fresh array |
| `Mailboxes.Mailbox.MarkAll` | internal/store/store.go:423-428 | Sets every flag and returns exactly the messages that were unread, in order |
| `Mailboxes.Mailbox.Copy` | internal/store/store.go:393-393 | A fresh array with the queue's messages |
| `Stores.Store.constructor` | internal/store/store.go:173-184 | Empty mailboxes, an empty index and no listener |
| `Stores.Store.ReadInto` | internal/store/persist.go:105-118 | The loop over the sorted IDs enters every readable message in the queue and in the index |
| `Stores.Store.LoadMailbox` | internal/store/persist.go:88-122 | Queue and index after loading one mailbox are the value-level ones, and the steps taken are the removals of what is over the cap |
| `Stores.Store.LoadEach` | internal/store/persist.go:88-124 | The loop over the mailboxes of the configuration: queues, index and directory are those of the value-level load |
| `Stores.NewStore` | internal/store/store.go:173-196 | A new store over a directory is the loaded value, has taken exactly the removals of loading, and is open when index and queues agree |
| `Stores.ConsistentAgrees` | internal/store/store.go:145-161 | Queues and index that share message objects are a store value in agreement |
| `Stores.Store.DeliverLocked` | internal/store/store.go:246-255 | The locked part of a delivery is the value-level delivery, and returns what was evicted |
| `Stores.Store.DeleteLocked` | internal/store/store.go:443-457 | The locked part of a deletion is the value-level deletion |
| `Stores.Store.ClearLocked` | internal/store/store.go:468-479 | The locked part of clearing is the value-level operation, and returns the removed queue |
| `Stores.Store.SetAllRead` | internal/store/store.go:417-429 | Setting the flags through shared objects changes that mailbox only |
| `Stores.Store.Deliver` | internal/store/store.go:231-276 | State, events and file steps are those of the value-level delivery; too large and unknown mailbox are refused, in that order |
| `Stores.Store.DeleteMessage` | internal/store/store.go:442-464 | State, events and file steps of a deletion; true if and only if the message was there; no array moves |
| `Stores.Store.ClearMailbox` | internal/store/store.go:467-488 | State, events and file steps of clearing, and the number of messages that were there |
| `Stores.Store.MarkMessage` | internal/store/store.go:397-413 | State, events and file steps of a flag change; nothing is written or published when nothing changes |
| `Stores.Store.MarkMailbox` | internal/store/store.go:416-439 | State, events and file steps of marking all, and the number that were unread |
| `Stores.Store.Snapshot` | internal/store/store.go:386-394 | A fresh array with the mailbox's messages, or an error for an unknown mailbox |
| `Stores.Store.Stats` | internal/store/store.go:212-228 | Totals, unread counts and bytes of every mailbox in configuration order |
| `Running.Execute` | internal/store/store.go:231-488 | Any operation of the running store is its value-level counterpart in state, events and file steps |
| `Running.RunAll` | internal/store/store.go:231-520 | A running store that executes any list of operations holds and has on disk what the value-level run says, and its history is the publications of that run |
| `Running.Live` | internal/store/store.go:173-520 | Loading whatever earlier lives left and running any operations ends in the store and the directory of the value-level life |
| `Running.HoldView` | internal/store/store.go:386-394 | A snapshot keeps its messages while any operations run on the store, in-place shifting included |
| `Wire.SplitLinesOfCrlf` | internal/pop3d/server.go:562-573 | What splitting gives back of lines stored with CRLF: the last line loses one more trailing CR |
| `Wire.SplitLinesUndoesCrlfIff` | internal/pop3d/server.go:562-573 | Splitting undoes CRLF storage if and only if the last line does not end in CR |
| `Wire.SplitLinesUnterminated` | internal/pop3d/server.go:562-573 | A last line without its line feed is a line as well |
| `Wire.StuffedSize` | internal/pop3d/server.go:577-586 | Stuffing adds one octet for each line that begins with a dot |
| `Wire.PayloadOfMultiline` | internal/smtpd/server.go:484-506 | Reading undoes stuffing for every list of LF-free lines, and fails exactly when a line is over the limit |
| `Wire.ReadDataOfRetrWire` | internal/pop3d/server.go:526-558 | For every stored byte string, SMTP reads from the RETR wire the logical lines and stops behind the lone dot |
| `Wire.ClientReadsMultiline` | internal/pop3d/server.go:526-558 | A client that ends lines at CRLF only reads back exactly the lines and stops behind the terminator |
| `Wire.EndToEnd` | internal/smtpd/server.go:447-506 | Lines sent in DATA, stored behind trace lines and fetched with RETR, come back behind the trace lines |
| `Wire.EndToEndExactIff` | internal/pop3d/server.go:562-573 | They come back unchanged if and only if the last line does not end in CR |
| `Wire.TopIsPrefixOfRetr` | internal/pop3d/server.go:526-550 | TOP is always a prefix of RETR, and equal if and only if the line count covers the body |
| `Chunks.LineIsAssembled` | internal/smtpd/server.go:608-624 | Putting buffer-sized chunks together comes to the line that ends at the first LF, and leaves behind what the chunks have not taken |
| `Chunks.LeftOfLine` | internal/smtpd/server.go:608-624 | Behind a line reading goes on right after its LF; at the end of the input nothing is left; of a line over the limit more than the limit is gone |
| `Chunks.LeftIsMuch` | internal/smtpd/server.go:608-624 | An error never takes anything behind the next LF, nor more than one buffer beyond the limit |
| `Chunks.PayloadLeftIff` | internal/smtpd/server.go:484-506 | The reader stands right behind the lone dot if and only if every line, as it was sent, is within the limit; otherwise it stands inside the payload |
| `WireIO.LineSource.NextLine` | internal/smtpd/server.go:608-624 | Chunks of the read buffer are put together to one line within the limit; an error exactly when it is longer, or when an unterminated last line is empty or just fills the buffer; what is left unread is exact in every case |
| `WireIO.LineSource.ReadData` | internal/smtpd/server.go:484-506 | An error exactly when the payload breaks off or has a line over the limit; too large if and only if the whole payload is; consumed through the lone dot either way, and what an error leaves unread is exact |
| `WireIO.LineSink.WriteLine` | internal/pop3d/server.go:552-558 | Writes the stuffed line and CRLF |
| `WireIO.LineSink.WriteDotStuffed` | internal/pop3d/server.go:526-550 | Writes the lines of TOP, or of the whole message, and the terminator |
| `WireIO.CrlfSize` | internal/pop3d/server.go:577-586 | The announced size is the octets sent before the terminator |
| `Maildrop.StatMatchesList` | internal/pop3d/server.go:362-418 | STAT is the number and the sum of the LIST lines, whatever is marked |
| `Maildrop.ListingIsTheView` | internal/pop3d/server.go:408-417 | LIST shows a line if and only if it describes an unmarked message under its original number |
| `Maildrop.ListingRises` | internal/pop3d/server.go:408-417 | The numbers rise and stay within the view |
| `Maildrop.EditsKeepView` | internal/pop3d/server.go:457-479 | No sequence of DELE and RSET moves a number, and RSET takes back every mark |
| `Maildrop.MarkingTakesOneOut` | internal/pop3d/server.go:457-468 | DELE takes one message and its size out of STAT and marks that ID only |
| `Maildrop.SweptExactly` | internal/pop3d/server.go:485-491 | The UPDATE loop removes exactly the marked messages that are there, keeps the order of the rest, and counts them |
| `Pop3Numbers.NumberPicks` | internal/pop3d/server.go:508-521 | Which entry a decimal number picks: the one at that place, counted from 1; a marked one and one out of range give the two errors |
| `Pop3Numbers.NoNumber` | internal/pop3d/server.go:508-511 | What has no digits, or anything else among them, is no number |
| `Pop3Numbers.RowPicks` | internal/pop3d/server.go:382-418 | For every row of LIST, its number picks the message with exactly that row's ID and octets |
| `Pop3Numbers.UnlistedIsMarked` | internal/pop3d/server.go:508-521 | A number within the view that LIST does not show belongs to a marked message |
| `Pop3Numbers.NumbersOverEdits` | internal/pop3d/server.go:457-479 | After any sequence of DELE and RSET a number that LIST shows picks the message it stood for when the view was taken |
| `Pop3Numbers.CommandsAgree` | internal/pop3d/server.go:382-468 | LIST and UIDL with a number give the row of that number, and DELE marks the message of that row and no other |
| `Pop3Numbers.AllRows` | internal/pop3d/server.go:408-417 | Without a number LIST gives number and octets of every row, and UIDL number and ID |
| `Pop3Numbers.TopAgrees` | internal/pop3d/server.go:434-455 | TOP with a number and a line count gives the message of that row and that many lines |
| `Pop3Numbers.TopRefuses` | internal/pop3d/server.go:434-455 | Any other number of arguments is refused, and so is a negative line count |
| `Pop3Numbers.NeedsLogin` | internal/pop3d/server.go:499-506 | Before a login DELE, RSET, LIST, UIDL and TOP are refused and change nothing |
| `Pop3Numbers.FiguresAreRows` | internal/pop3d/server.go:362-380 | STAT, PASS and RSET report the number of rows that LIST shows, then the sum of their octets |
| `Text.AtoiIff` | internal/pop3d/server.go:508-511 | What is read as a number, and which: an optional sign and digits, within 64 bits |
| `Text.AtoiOfDecimal` | internal/pop3d/server.go:508-511 | A written number is read as itself, up to 64 bits |
| `Text.AtoiOfSigned` | internal/pop3d/server.go:508-511 | So is one with a sign |
| `Text.BlankIsWhiteSpace` | internal/smtpd/server.go:645-659 | What is trimmed: exactly the characters with the Unicode property White_Space, as UTF-8 writes them |
| `Pop3.NextKeeps` | internal/pop3d/server.go:139-159 | Every step of any session and of anybody else keeps lock table, sole holders, views and store sound |
| `Pop3.RunKeeps` | internal/pop3d/server.go:139-159 | So does every run, in every interleaving |
| `Pop3.TakesHold` | internal/pop3d/server.go:139-150 | A lock is taken only if nobody holds it, and then by one session |
| `Pop3.LetsGo` | internal/pop3d/server.go:198-203 | Releasing frees what the session holds and nothing else |
| `Pop3.StoredKeeps` | internal/pop3d/server.go:319-327 | Changes of the store by others leave every view sound |
| `Pop3Runs.LockSafety` | internal/pop3d/server.go:139-159 | From any store in agreement and within its cap, over every run, the lock table is the set of mailboxes held by sessions, one holder each |
| `Pop3Runs.OnlyTheHolderFrees` | internal/pop3d/server.go:198-203 | A lock disappears only by a step of the one session that holds it |
| `Pop3Runs.RefusedFreesNothing` | internal/pop3d/server.go:314-319 | IN-USE means another session holds the mailbox; quitting, hanging up or STLS of the refused one frees nothing |
| `Pop3Runs.ViewFrozen` | internal/pop3d/server.go:319-338 | From the snapshot of PASS, and through any run of anybody, each number stands for the ID and octets of the message that the mailbox held there at that moment; at first nothing is marked |
| `Pop3Runs.ViewKept` | internal/pop3d/server.go:161-165 | In TRANSACTION a number keeps its ID and octets through any run of anybody |
| `Pop3Runs.SessionsOnlyDeleteMarked` | internal/pop3d/server.go:483-491 | A session changes the store only in its UPDATE loop, only by deleting what it marked, only in its own mailbox |
| `Pop3Runs.NoQuitNoRemoval` | internal/pop3d/server.go:205-210 | Without QUIT, as when the connection drops, a session removes nothing |
| `Pop3Runs.QuitRemovesTheMarked` | internal/pop3d/server.go:483-497 | Among any other activity: afterwards nothing it marked is stored, all it removed was marked, and the reply is their number |
| `Pop3Runs.QuitAlone` | internal/pop3d/server.go:483-497 | Undisturbed: exactly the marked messages still present go, other mailboxes are untouched, the lock is free |
| `Pop3Login.UserGivesName` | internal/pop3d/server.go:286-297 | USER gives the name that PASS will use, white space around it aside, until a view is open |
| `Pop3Login.PassGoesOnIff` | internal/pop3d/server.go:299-319 | PASS locks a mailbox if and only if there is no transaction, a name was given, the login is the configured one or none is configured, the mailbox is the user's own with user routing and else the default, and it is free |
| `Pop3Login.PassRefused` | internal/pop3d/server.go:299-319 | Otherwise which refusal, in this order; a wrong login and a mailbox in use forget the name |
| `Pop3Login.OpensIff` | internal/pop3d/server.go:319-340 | The rest of PASS opens the locked mailbox if and only if it exists, and gives the lock back otherwise |
| `Pop3Login.TLSForgets` | internal/pop3d/server.go:262-284 | Starting TLS forgets the name given in plain |
| `Pop3Login.InTransactionWasAdmitted` | internal/pop3d/server.go:286-340 | Over every run of any sessions: one that has a view was let in by a PASS with the right login, to the mailbox that this login leads to, when that was free, under a name that USER gave and STLS did not discard |
| `Pop3Server.Server.Lock` | internal/pop3d/server.go:139-150 | Takes the lock if it is free; without exclusive locking always succeeds and records nothing |
| `Pop3Server.Server.Unlock` | internal/pop3d/server.go:152-159 | Frees that mailbox only |
| `Pop3Server.Connection.Release` | internal/pop3d/server.go:198-203 | Frees the session's own lock once |
| `Pop3Server.Connection.HandleUser` | internal/pop3d/server.go:286-297 | USER as the session turn says |
| `Pop3Server.Connection.TryLock` | internal/pop3d/server.go:299-319 | PASS up to the lock as the session turn says, and the lock table with it |
| `Pop3Server.Connection.Enter` | internal/pop3d/server.go:319-338 | Freezing the view from a snapshot, or giving the lock back |
| `Pop3Server.Connection.HandleStls` | internal/pop3d/server.go:262-284 | STLS as the session turn says; a failed handshake ends the connection |
| `Pop3Server.Connection.Find` | internal/pop3d/server.go:508-521 | Resolves a message number or says why not |
| `Pop3Server.Connection.Figures` | internal/pop3d/server.go:362-371 | The loop computes count and octets of the unmarked messages |
| `Pop3Server.Connection.HandleStat` | internal/pop3d/server.go:373-380 | STAT reports the figures of the session turn |
| `Pop3Server.Connection.HandleList` | internal/pop3d/server.go:382-418 | LIST and UIDL give the rows of the listing, or the one row asked for, or the refusal |
| `Pop3Server.Connection.HandleRetr` | internal/pop3d/server.go:420-432 | RETR announces and sends the message of that number |
| `Pop3Server.Connection.HandleTop` | internal/pop3d/server.go:434-455 | TOP sends the header and the lines asked for, or says why not and sends nothing |
| `Pop3Server.Connection.HandleDele` | internal/pop3d/server.go:457-468 | DELE marks the one message or says why not |
| `Pop3Server.Connection.HandleRset` | internal/pop3d/server.go:470-479 | RSET unmarks everything and reports the figures |
| `Pop3Server.Connection.HandleQuit` | internal/pop3d/server.go:483-497 | QUIT sweeps the store, frees the lock and reports how many messages it removed |
| `Pop3Host.Host.Step` | internal/pop3d/server.go:205-260 | Any action of any connection, or of others on the store, leads the running server where the value-level one goes, and the client is told what it says |
| `Pop3Host.Host.Run` | internal/pop3d/server.go:139-497 | So does any list of actions, with all the replies; then the lock table holds exactly the mailboxes of the locked connections, one holder each |
| `Pop3Host.Serve` | internal/pop3d/server.go:139-497 | The same from a new server over any open store within its cap, so that what is proved of value-level runs holds of it |
| `SmtpRuns.SessionIsShown` | internal/smtpd/server.go:226-480 | After every command sequence, sender, recipients, login and TLS are what commands and reply codes show |
| `SmtpRuns.TransactionStep` | internal/smtpd/server.go:364-424 | One command keeps the transaction in step with the dialogue |
| `SmtpRuns.LoginStep` | internal/smtpd/server.go:255-351 | One command keeps login and TLS in step with the dialogue |
| `SmtpRuns.HandedOverAsShown` | internal/smtpd/server.go:426-458 | A stored message carries the last accepted MAIL and exactly the RCPTs accepted since, 1 up to the limit, with a login since the last STARTTLS when required |
| `SmtpRuns.TranscriptEntitled` | internal/smtpd/server.go:426-480 | Every message handed over anywhere in a dialogue carries what the dialogue before it shows |
| `SmtpRuns.PlainLogsInIff` | internal/smtpd/server.go:283-362 | AUTH PLAIN with encoded credentials logs in if and only if they are the configured ones, or none are |
| `SmtpRuns.MailNeedsGreeting` | internal/smtpd/server.go:364-375 | MAIL is accepted only after a greeting, with nothing open, and after a login since the last STARTTLS where one is required |
| `SmtpRuns.DataRefusedIff` | internal/smtpd/server.go:426-434 | DATA gets 503 if and only if the dialogue shows no open transaction with a recipient |
| `SmtpRuns.StartTLSIff` | internal/smtpd/server.go:255-281 | STARTTLS begins the session anew under TLS if and only if TLS is available, not active, and the handshake succeeds; otherwise which refusal, or the end of the session |
| `SmtpRuns.TLSStartsOnce` | internal/smtpd/server.go:255-281 | In every dialogue TLS starts at most once, only where it is available and was not active from the start |
| `SmtpRuns.OpenIff` | internal/smtpd/server.go:181-224 | After every command sequence the session is open if and only if it saw neither QUIT nor a failed handshake, and nothing is answered behind these |
| `SmtpPaths.BracketedPath` | internal/smtpd/server.go:660-675 | Whatever stands between the brackets, trimmed, is the address, and what follows them the parameters |
| `SmtpPaths.PlainPath` | internal/smtpd/server.go:660-668 | An address without brackets and blanks stands for itself |
| `SmtpPaths.OpenBracket` | internal/smtpd/server.go:669-672 | A bracket that is not closed is refused |
| `SmtpPaths.LastSizeCounts` | internal/smtpd/server.go:677-682 | Of several `SIZE=` parameters, in any case, the last counts |
| `SmtpPaths.MailGivesSender` | internal/smtpd/server.go:364-397 | MAIL with an address in brackets and any parameters without a size makes that address, trimmed, the sender |
| `SmtpPaths.MailTooLargeIff` | internal/smtpd/server.go:385-393 | With a size, it gets 552 if and only if the last one reads as a number over the limit, and then changes nothing |
| `SmtpPaths.MailOfSize` | internal/smtpd/server.go:385-393 | The same for a written size |
| `SmtpPaths.MailOpenBracket` | internal/smtpd/server.go:376-384 | MAIL with an open bracket is refused |
| `SmtpPaths.MailRefusedFirst` | internal/smtpd/server.go:364-375 | Why MAIL is refused before its arguments count, in this order |
| `SmtpPaths.RcptGivesRecipient` | internal/smtpd/server.go:399-424 | RCPT adds the address between the brackets, trimmed, unless that is empty or the limit is reached |
| `SmtpPaths.RcptNeedsMail` | internal/smtpd/server.go:399-403 | RCPT wants an open transaction |
| `SmtpPaths.LogsInIff` | internal/smtpd/server.go:283-362 | AUTH logs in, under the name the client gave, if and only if it is on, nobody is logged in, and the login is the configured one or none is configured; and with which code it is refused |
| `SmtpPaths.EnvelopeOfBrackets` | internal/smtpd/server.go:364-458 | After any dialogue with bracketed addresses the envelope has the sender of the last accepted MAIL and, in order, the recipients accepted since, as they stood between their brackets |
| `SmtpPaths.GreetingGivesName` | internal/smtpd/server.go:226-253 | HELO and EHLO remember the name, white space around it aside, and begin anew |
| `SmtpPaths.BlankGreeting` | internal/smtpd/server.go:226-253 | A blank one is refused, and the greeting there was is forgotten |
| `SmtpDelivery.EachGetsACopy` | internal/smtpd/server.go:462-479 | Each of several existing mailboxes gets one copy at its tail, nothing else changes, and the reply is 250 |
| `SmtpDelivery.AllOrNothing` | internal/smtpd/server.go:447-479 | DATA ends with a copy in every resolved mailbox and 250, or with an unchanged store and 552, the latter exactly when the message with its trace lines is over the limit |
| `SmtpDelivery.TraceIsLines` | internal/smtpd/server.go:510-524 | The Received header is three lines without LF |
| `SmtpDelivery.TraceSays` | internal/smtpd/server.go:508-527 | What the three lines say |
| `SmtpDelivery.ProtocolSays` | internal/smtpd/server.go:511-520 | The protocol: extended after a greeting, with S under TLS and A after a login |
| `SmtpDelivery.SentIsFetched` | internal/smtpd/server.go:447-453 | What is stored for sent lines, and that RETR gives the client trace lines and sent lines |
| `SmtpDelivery.SubmittedIsFetched` | internal/smtpd/server.go:447-479 | From DATA to RETR: the newest message of each resolved mailbox is this one, with its envelope, and is fetched line by line |
| `SmtpDelivery.DataAnsweredIff` | internal/smtpd/server.go:426-506 | DATA is answered and ends the transaction if and only if every sent line is within the limit; otherwise nothing at all changes |
| `SmtpDelivery.OverlongUnanswered` | internal/smtpd/server.go:608-624 | One line over the limit: no reply, and the transaction stays open |
| `SmtpDelivery.DialogueKeepsStore` | internal/smtpd/server.go:181-480 | Through every dialogue index and queues agree and the cap holds |
| `SmtpDelivery.AnsweredMeansStored` | internal/smtpd/server.go:426-480 | At any point of any dialogue a 250 to DATA means a copy in every resolved mailbox, and any other answer an unchanged store |
| `SmtpServer.Conversation.HandleEhlo` | internal/smtpd/server.go:226-253 | HELO and EHLO; a blank name is remembered and refused without a reset |
| `SmtpServer.Conversation.HandleStartTLS` | internal/smtpd/server.go:255-281 | STARTTLS discards greeting, login, transaction and everything unread, or changes nothing |
| `Auth.DecodeUndoesEncode` | internal/smtpd/server.go:303-303 | Strict base64 decoding undoes encoding, for every byte string |
| `Auth.PlainIff` | internal/smtpd/server.go:292-312 | AUTH PLAIN delivers the encoded user name and password if and only if no part contains NUL; otherwise 501; it takes no further line |
| `Auth.LoginDelivers` | internal/smtpd/server.go:313-336 | AUTH LOGIN delivers any encoded user name and password, and takes these two lines and nothing else |
| `Auth.AnswerIsTrimmed` | internal/smtpd/server.go:299-340 | Blanks around an answer do not count |
| `Auth.PaddingRequired` | internal/smtpd/server.go:299-340 | A code without its padding is refused |
| `Auth.UnknownMechanism` | internal/smtpd/server.go:337-339 | A mechanism other than PLAIN and LOGIN is refused, and nothing is read for it |
| `Auth.NoCode` | internal/smtpd/server.go:299-340 | What is no code is refused, as a name or as a password |
| `SmtpServer.Conversation.Negotiate` | internal/smtpd/server.go:291-340 | Mechanism, further lines and decoding, read from the connection, and what that leaves unread |
| `SmtpServer.Conversation.HandleAuth` | internal/smtpd/server.go:283-340 | AUTH as the session turn says for the login that was decoded; refused, it reads nothing |
| `SmtpServer.Conversation.FinishAuth` | internal/smtpd/server.go:342-362 | Valid credentials log in, others change nothing |
| `SmtpServer.Conversation.HandleMail` | internal/smtpd/server.go:364-397 | MAIL with its checks in their order |
| `SmtpServer.Conversation.HandleRcpt` | internal/smtpd/server.go:399-424 | RCPT with its checks in their order |
| `SmtpServer.Conversation.ResolveFor` | internal/smtpd/server.go:529-550 | Header, routes, user name, default, in this order |
| `SmtpServer.Conversation.TakeMessage` | internal/smtpd/server.go:426-458 | DATA up to the store: envelope and mailboxes fixed, transaction reset, and what is left unread, for every stream |
| `SmtpServer.DeliverEach` | internal/smtpd/server.go:462-479 | Stores one copy after another on the running store, with the reply |
| `SmtpServer.Conversation.HandleData` | internal/smtpd/server.go:426-480 | The whole of DATA on the running store: session, store, reply and what is left unread |
| `SmtpStream.StreamIsDialogue` | internal/smtpd/server.go:181-224 | Whatever octets come in, what is read of them is a dialogue of the session: its commands in order, the replies and the store that they lead to; an error of the reader ends it |
| `SmtpStream.PipelinedInOrder` | internal/smtpd/server.go:181-224 | Commands sent in one go are read one by one, in order, and what is behind them stays unread |
| `SmtpStream.PayloadIsNoCommandIff` | internal/smtpd/server.go:426-506 | Behind DATA the next command is what follows the lone dot if and only if every sent line is within the limit; otherwise it is read from inside the payload |
| `SmtpStream.PipelinedBehindPayload` | internal/smtpd/server.go:181-506 | DATA, a payload within the limit and any commands behind it, all in one go: the commands read are exactly these |
| `SmtpStream.ReadInsidePayload` | internal/smtpd/server.go:484-506 | Behind an over-long line, a payload line that reads DATA is taken for the command |
| `SmtpStream.NothingSmuggledIntoTLS` | internal/smtpd/server.go:255-281 | What came in plain behind STARTTLS is never read |
| `SmtpStream.SessionEnds` | internal/smtpd/server.go:181-224 | Every round reads at least one octet, so a session is over at the latest when none is left |
| `SmtpStream.LineMeans` | internal/smtpd/server.go:183-223 | What every line asks for, by its first word in any case and the rest of it, whatever white space is around them |
| `SmtpStream.BlankLineMeans` | internal/smtpd/server.go:183-223 | A blank line gets 500 |
| `SmtpServer.Conversation.Round` | internal/smtpd/server.go:183-223 | One round of the loop: read a line, find the verb, do what it asks; session, unread octets, store and reply are those of the value level |
| `SmtpServer.Conversation.Converse` | internal/smtpd/server.go:181-224 | The loop over one octet stream on the running store: session, unread octets, store and replies are those of the value-level dialogue |
| `Routing.RoutedIff` | internal/smtpd/server.go:555-576 | A mailbox is routed to if and only if it exists and some recipient's first matching rule names it; never twice |
| `Routing.RoutedInFirstNamedOrder` | internal/smtpd/server.go:555-576 | In order of first naming |
| `Routing.MoreRecipientsExtend` | internal/smtpd/server.go:555-576 | More recipients only extend the result |
| `Routing.NothingAfterCatchAll` | internal/config/routes.go:22-38 | Rules behind a catch-all never matter |
| `Routing.ResolvedIsUsable` | internal/smtpd/server.go:529-550 | The resolved mailboxes exist, are distinct and at least one; only routes name several |
| `RoutingOrder.ResolvedInOrder` | internal/smtpd/server.go:526-550 | For every payload: with header routing and a first routing header that names an existing mailbox, exactly that one; otherwise, if some recipient is routed, exactly the routed ones; otherwise the user's existing mailbox under user routing; otherwise the default |
| `RoutingOrder.HeaderIsFirst` | internal/smtpd/server.go:578-592 | The value of a header is that of the first line of the head with this name, trimmed, in any case |
| `RoutingOrder.HeaderIsMissing` | internal/smtpd/server.go:578-592 | Without such a line there is none, whatever the body holds |
| `RoutingOrder.RoutedMeans` | internal/smtpd/server.go:555-576 | A mailbox is routed to if and only if it exists and the first rule that applies to some recipient names it |
| `RoutingOrder.FirstRuleDecides` | internal/smtpd/server.go:555-576 | A recipient goes where the first rule that applies sends it |
| `Routes.CatchAll` | internal/config/routes.go:22-38 | `*` is every address |
| `Routes.DomainPattern` | internal/config/routes.go:22-38 | `*@d` and `@d` are exactly the addresses that end in `@d`, trimmed and in any case |
| `Routes.LocalPattern` | internal/config/routes.go:22-38 | `l@*` is exactly the addresses that start with `l@` |
| `Routes.PlainPattern` | internal/config/routes.go:22-38 | Any other pattern is exactly one address |
| `Routing.MatchRoutes` | internal/smtpd/server.go:555-576 | The loops with the `seen` map compute the first-naming order |
| `Routes.ParseRoutes` | internal/config/routes.go:50-88 | The loops compute the parser function, errors included |
| `Routes.AcceptedIsWellFormed` | internal/config/routes.go:50-88 | Accepted rules have a pattern with at most one wildcard and at least one target, all known |
| `Routes.ParseUndoesPrint` | internal/config/routes.go:41-88 | Printing any well-formed list and parsing it gives it back |
| `Routes.ParsePrintParse` | internal/config/routes.go:41-88 | So does every list the parser accepts |
| `Routes.BlankTargetsSkipped` | internal/config/routes.go:50-88 | Blank targets do not count |
| `Routes.BlankRulesSkipped` | internal/config/routes.go:50-88 | Neither do blank rules |
| `Routes.RuleGiven` | internal/config/routes.go:50-88 | What a rule comes to: its pattern, trimmed, with at most one wildcard, and its targets, trimmed and in lower case |
| `Routes.FirstUnknown` | internal/config/routes.go:50-88 | The first unknown target is reported |
| `Routes.RuleNeedsEquals` | internal/config/routes.go:50-88 | Without `=` there is no rule |
| `Routes.EitherEndsARule` | internal/config/routes.go:50-88 | A semicolon and a line end separate rules alike |
| `Headers.Build` | internal/web/compose.go:64-97 | The buffer loops write the fixed, the allowed free-form and the content fields, a blank line and the body |
| `Headers.Buffer.WriteHeader` | internal/web/compose.go:236-241 | Writes one field line |
| `Headers.PrintedField` | internal/web/compose.go:236-241 | A field is its name, a colon, a blank and its value on a line of its own; a blank line comes before the body |
| `Headers.ParseHeaders` | internal/mailparse/mailparse.go:237-255 | The loop with unfolding computes the parser function |
| `Headers.SplitMessageOfPrinted` | internal/mailparse/mailparse.go:226-234 | The head ends at the first blank line, and the body is what follows, octet for octet |
| `Headers.ParseUndoesPrint` | internal/mailparse/mailparse.go:226-255 | Printed fields parse to the same pairs in order with trimmed values |
| `Headers.ParseUndoesPrintIff` | internal/mailparse/mailparse.go:226-255 | For one-line values this holds if and only if no name contains a colon or a line feed |
| `Headers.FoldedIsRead` | internal/mailparse/mailparse.go:237-255 | A value folded over lines that begin with a blank or a tab is read with one blank for each fold |
| `Headers.SplitAtBareBlankLine` | internal/mailparse/mailparse.go:226-234 | Without a CRLF blank line the head ends at the first LF one |
| `Headers.NothingToSplit` | internal/mailparse/mailparse.go:226-234 | Without either there is no body |
| `Headers.FreeFieldsCannotOverride` | internal/web/compose.go:79-85 | Free-form fields whose names have neither colon nor line feed add nothing under a reserved name |
| `Overrides.RespectedIff` | internal/web/compose.go:42-85 | For any free-form names: the parser finds under the reserved names what the builder wrote if and only if nothing is unfolded into the Subject and the reserved fields behind it are the builder's |
| `Overrides.RespectedIffHarmless` | internal/web/compose.go:42-85 | For names without a blank line: if and only if none of the lines they print starts a reserved field or continues the Subject |
| `Overrides.RespectedIffColonsBehindFreeNames` | internal/web/compose.go:42-85 | For names without a line feed: if and only if what stands before the first colon of a name is never a reserved name |
| `Overrides.OverrideByColon` | internal/web/compose.go:79-85 | The free-form name `Subject:x` is let through and read as a second Subject |
| `Precedence.PrevailsIffUndisturbed` | internal/mailparse/mailparse.go:111-131 | The reader takes the first field of a name. For names without a line feed, under every reserved name it finds what it would find without the free-form fields if and only if the builder wrote that field first, or no free-form name is read as it, or both say the same |
| `Precedence.PrevailsIff` | internal/web/compose.go:42-85 | In terms of the names, when no content field has a colon in its value: if and only if no free-form name has, before its first colon, a reserved name that the builder has yet to write |
| `Precedence.ContentTypeOverridden` | internal/web/compose.go:79-95 | The free-form name `Content-Type:x` decides what content type the reader finds |
| `Precedence.CcOverriddenIff` | internal/web/compose.go:69-85 | `Cc:x` is found as the Cc if and only if none was given |
| `Precedence.SubjectStays` | internal/web/compose.go:79-85 | `Subject:x` adds a second Subject, but the first is found |
| `Precedence.FoundAlways` | internal/web/compose.go:64-78 | The reader finds date, message ID, sender, recipients and subject as the builder got them |
| `Precedence.FoundIfGiven` | internal/web/compose.go:64-78 | And Cc, Bcc and Reply-To if they were given |
| `Precedence.TrailingIsRead` | internal/web/compose.go:86-97 | The MIME version and the content fields are read last, as they were given |
| `Precedence.FreeFieldIsRead` | internal/web/compose.go:79-85 | A free-form field with a name of its own is read back with its value, trimmed |
| `Precedence.SanitizedBlanks` | internal/web/compose.go:245-248 | Line breaks in a value become blanks, and nothing else changes |
| `Overrides.HarmlessColon` | internal/web/compose.go:79-85 | The free-form name `X:Y` overrides nothing |
| `Overrides.OverrideByUnfolding` | internal/web/compose.go:79-85 | A name whose second line starts with a blank is unfolded into the Subject |
| `Overrides.OverrideByBlankLine` | internal/web/compose.go:79-85 | A name with a blank line ends the head, and MIME-Version is lost |
| `Headers.OverrideByLineBreak` | internal/web/compose.go:79-85 | A free-form name that contains a line break prints a second Subject |
| `Transfer.WrapBase64` | internal/web/compose.go:291-301 | The loop cuts the encoding into pieces of 76 with CRLF between |
| `Transfer.WrappedLinesAreShort` | internal/web/compose.go:291-301 | No produced line is longer than 76 |
| `Transfer.EncodeBits` | internal/web/compose.go:291-301 | Each three octets are coded as the same 24 bits, the first ones first, and the rest behind them |
| `Transfer.LastBits` | internal/web/compose.go:291-301 | The last one or two octets are filled up with zero bits and padding |
| `Transfer.AlphabetIs` | internal/web/compose.go:291-301 | The alphabet |
| `Transfer.UnpaddedDecodes` | internal/mailparse/mailparse.go:282-287 | Decoding without padding undoes encoding, for every byte string |
| `Transfer.DecodeUndoesWrap` | internal/mailparse/mailparse.go:271-287 | Decoding undoes wrapping and line-ending normalisation, for every byte string |
| `Transfer.NormalizeIdempotent` | internal/web/compose.go:304-307 | Normalising line endings twice is normalising once |
| `Transfer.NormalizeFixedPointsIff` | internal/web/compose.go:304-307 | It changes nothing if and only if every LF has a CR before it |
| `Transfer.NormalizeMixed` | internal/web/compose.go:304-307 | Lines that end in LF or CRLF, mixed in any way, come out with CRLF |
| `Transfer.BlanksIgnored` | internal/mailparse/mailparse.go:271-287 | Line breaks, blanks and tabs anywhere in a code do not count |
| `Transfer.StrangeOctet` | internal/mailparse/mailparse.go:271-287 | An octet outside the alphabet is refused |
| `Mime.VisitsInOrder` | internal/mailparse/mailparse.go:134-189 | Leaves are processed in document order, each once |
| `Mime.VisitedIff` | internal/mailparse/mailparse.go:134-189 | A leaf is processed if and only if it lies within the depth limit, and then with its own kind and content |
| `Mime.KindIs` | internal/mailparse/mailparse.go:134-189 | What is shown as text, what as HTML and what is an attachment |
| `Mime.ShownInLines` | internal/mailparse/mailparse.go:191-203 | The texts of one kind are joined, in order, with a line feed between them |
| `Mime.DottedInjective` | internal/mailparse/mailparse.go:167-167 | Different positions have different part numbers |
| `Mime.PartNumbers` | internal/mailparse/mailparse.go:134-167 | The root is 1, and the parts below a part are numbered behind its own number |
| `Mime.PartIDsUnique` | internal/mailparse/mailparse.go:205-223 | No two attachments share a part number |
| `Mime.Message.Walk` | internal/mailparse/mailparse.go:134-189 | The recursion adds exactly the visits of its part to text, HTML and attachments |
| `Mime.WalkMessage` | internal/mailparse/mailparse.go:76-107 | A message's texts and attachments are those of its visits, in order; its body is shown when these come to nothing, so only an empty body shows nothing |

## Left out

- Sockets, deadlines, the TLS handshake itself, `Serve`, `Close`, `track` and logging;
  STARTTLS and STLS are the change of session state they make, with the outcome given.
- HTTP handlers, the browser client, start-up, certificates and environment parsing.
- `List` with its search and paging, `SanitizeFilename`, `snippet`, `stripTags`, `Summary`:
  they would only add easier members.
- JSON, MIME media types, multipart splitting, quoted-printable, charsets, RFC 2047 words and
  mail address parsing are library code; a MIME message is a tree of parts whose kinds are
  given.
- The prompts of AUTH and DATA (334 and 354), and whether a client waits for them.
- Reply texts, the EHLO and CAPA listings, and the order in which replies reach the client.
- Upper and lower case and case folding outside ASCII.
- Mailbox operations that race each other's file writes or events: both happen after the
  store's lock is released, and the model takes whole operations one at a time. POP3
  sessions and the in-memory store do interleave.
- `Restart.CrashAfterRun`: covers delivery, deletion and marking one message;
  `Lifetimes.NextLife` covers the other two as well, with what a crash leaves of them.
- `Recovery.CrashAtomic`: requires ascending IDs; the exact conditions are in `Atomicity`.
- `SmtpServer.Conversation.HandleData`: IDs and times come from a supplied list.
- `SmtpServer.Conversation.Converse`: covers as many rounds as there are slots of IDs and times;
  `SmtpStream.SessionEnds` says how many are enough.
- `Listening.Listen`: a listener joins between two operations, not inside one.
- `Headers.Build`: addresses, subject encoding and the choice of body structure are given;
  the free-form fields may come in any order.
