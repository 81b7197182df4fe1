# satpulse models

Dafny models of seven stateful or combinatorial parts of satpulse, with the properties they are relied on for.
`dafny verify dfyconfig.toml` checks everything.

| part | source | modules |
|---|---|---|
| Packet scanner | `gps/scan/scan.go`, `gps/gpsprot/packet.go` | PacketFormats, Segmentation, ScanSteps, Scan, Recognition, HiddenStarts, ScanRuns |
| Configuration director | `gps/gpsprot/configprotocol.go` | ConfigRequests, StuckRequests, ConfigRecords, ConfigDirector |
| Request/response correlator | `gps/msgfile/correlate.go`, `gps/msgfile/sept.go` | Correlation, CorrelationRuns, Septentrio |
| SSE hub and write seat | `cmd/satpulsewb/sink.go`, `cmd/satpulsewb/server.go` | HubEvents, SseHub, WriteSeat |
| Include trees and tag ownership | `gps/msgfile/msgfile.go` | IncludeTrees, IncludeDescent, IncludeLoader, TagOwnership |
| Save groups | `gpshwtest/characterize.py` | SaveGroups, SaveCharacter, SaveSurvey |
| Epochs and correction kinds | `gps/gpsprot/msg.go` | EpochMerge, Epochs, CorrKinds |
| Shared | | Options, Sequences |

**Scanner.** `Segmentation.Tokens` says on a whole byte stream where its packets are. The scanner is the loop of the
source over a buffer that is refilled, compacted and grown; its `Scan` returns the next piece of that segmentation,
whatever the reads; a record of the reader's failures says which of them each result reports. `Recognition` describes
the fate of a candidate without following the loop.

**Director.** The `Configurator` and the client do anything their contracts allow: every transition documented for
requests, any packets and any passage of time while an action is carried out. `Actions` is total, so its termination
holds for all of them. A run is measured by the requests still to be generated, the retries left, how much can still
happen to the requests, deadline extensions included, and how many waits the client cuts short before that happens. A
client that reports the time first and then waits, as `gps/app/gpscfg/gpscfg.go:526-560` does, cuts one short for
every deadline and more for packets that change nothing; no total of these is fixed in advance. The client keeps what
it saw with each action, the Configurator which requests were given up and which were told of a packet: the director
is held to these records.

**Correlator.** The class holds the list of requests; the runs are all sequences of sent messages and received packets
that its methods can make. `Septentrio` puts the receiver's replies on top, with other traffic between: that commands
are answered one at a time follows from pacing. What an acknowledgement or data does to the request it fits is also
stated without the functions the methods are proved against.

**Hub.** Every method is one step under the mutex; clients take events from their queues at any time, also during a
fan-out. A ghost log of all encodable events says what the caches and each client's events must be. The write seat
adds the steps of a claim, between which anyone else may act; any sequence of steps is followed on a small value.

**Includes.** Loading appends to the list of files as the source does, and succeeds exactly when there is a tree of
files that follows the includes and repeats no path. In that tree the interval labels are proved to say which file
includes which, directly or not, so tag ownership is stated on chains of includes alone.

**Save groups.** Groups are merged in place, pair by pair in any order; connectedness is by paths. A set of properties
is consistent when some assignment of groups explains the observations.

**Epochs and kinds.** The manager's methods are proved against functions on its state; conservation and recovery are
about sequences of those. Correction kinds are sets of bit indices ordered by the table's parents.

## What the code does not promise

- Chunking independence fails when the last bytes arrive together with the error that ends the stream: `Scan` returns
  the error at once (`gps/scan/scan.go:113-141`) and the bytes stay in the buffer, which the caller never scans
  (`gps/app/gpsio/conn.go:273-292`). `ScanRuns.ScanAll` states the exact condition, the end in a read of its own;
  `ScanRuns.EndLosesItsBytes` gives readers that differ.
- A format tried by going back to the first byte (`gps/scan/scan.go:167-179`) is not asked whether that byte alone is
  a whole packet, as the first format is. `Recognition.LeastLength` and `DescriptionIsCandidate` say so, and
  `Recognition.OneBytePacketMissed` gives two such formats.
- A result with a read error or invalid data resets what the scanner knows of the packet before
  (`gps/scan/scan.go:207`), so a timeout between two packets can change whether a bad checksum of the second leads to
  a rescan.
- A timeout that comes with bytes between two packets is reported as one in the middle of a packet
  (`gps/scan/scan.go:117-133`); `Scan.BetweenPackets` says exactly when it is not.
- The panic about requests stuck in NotReady (`gps/gpsprot/configprotocol.go:481-487`) can be reached under the
  documented contract, if requests change while the client handles an error yielded by `updateWindow`; the client of
  `gps/app/gpscfg/gpscfg.go:526-528` lets time pass on errors too. `StuckRequests.StuckExactlyWhenAtRisk` gives the
  exact condition on the requests as generated, for clients that let only time pass and for those that also receive
  packets; `ConfigDirector.Director.Actions` excludes the panic unless it holds; `StuckRequests.ClockGetsStuck` gives
  such requests.
- `GenerateRequests` is documented to leave some request actionable (`gps/gpsprot/configprotocol.go:125`); the
  director needs the first unfinished one to be. The model takes the stronger reading;
  `StuckRequests.SomeActionableIsNotEnough` gives requests that meet only the weaker one and make the guard of the
  panic true with no error at all.
- Two protocols may stay an epoch apart for ever: if the one that does not end its own epochs starts first, alone,
  each contribution of the other is flushed with it an epoch late. `Epochs.TogetherUnlessBehind` gives the exact
  condition on the manager's state, `Epochs.LoneStartLeavesBehind` such a start.
- The comment on Skipped calls the state final and lets `GenerateRequests` leave it; the model takes it as final, as
  `updateWindow` does.
- `partition_consistent` ignores a property observed apart from itself; so does `SaveCharacter.Explains`. 

## Model

| member | source | states |
|---|---|---|
| PacketFormats.IsValidPacket | gps/gpsprot/packet.go:76-88 | The loop accepts a buffer exactly when no nonempty prefix takes the format back to sync and the state after all of it is final |
| Segmentation.FirstStart | gps/scan/scan.go:147-157 | The first format, from a given one on, that can start a packet with a byte |
| Recognition.DescriptionIsCandidate | gps/scan/scan.go:144-196 | An outcome is the fate of a candidate if and only if: the formats before the deciding one give up, and it completes by its shortest valid packet, or it keeps going to the end of the stream; or all give up, the last one that could start after so many bytes |
| Recognition.TokensConserveBytes | gps/scan/scan.go:98-210 | The segmentation of any stream is a partition of its bytes, in order |
| Recognition.TokensSound | gps/scan/scan.go:144-206 | Everything the segmentation recognises is a valid packet of its format with the right checksum verdict |
| Scan.Reader.Read | gps/scan/scan.go:243-258 | A read takes as much of the next chunk as fits and yields its error with its last bytes; a reader that is empty reports end of file for ever |
| Scan.Scanner.constructor | gps/scan/scan.go:83-89 | A new scanner has an empty buffer of the given size, and can scan if that is positive |
| Scan.NoRoomNoProgress | gps/scan/scan.go:239-258 | With a buffer of no size a read never yields the bytes that are there, so the source would read for ever |
| Scan.Scanner.Fill | gps/scan/scan.go:229-259 | Through compaction and growth the last bytes before the scan point survive, the room read into is never empty, and what is read is appended after them |
| Scan.Scanner.Restart | gps/scan/scan.go:214-225 | Going back stops at the first byte after the first of the candidate that some format could start with, and gives up at least one byte |
| Scan.Scanner.OnReadError | gps/scan/scan.go:113-141 | Which reader errors are reported as read errors, which end the scan, and which only end an invalid run, how much is given up, and when a timeout counts as one in the middle of a packet |
| Scan.Scanner.Decide | gps/scan/scan.go:144-185 | One byte is taken by the right format, sends the scanner back to the next format that could start with the first byte, ends an invalid run before a byte that could start a packet, or ends a candidate |
| Scan.Scanner.CheckPacket | gps/scan/scan.go:197-206 | A completed packet is accepted with its verdict unless the checksum is bad and its format wants a rescan |
| Scan.Scanner.ScanByte | gps/scan/scan.go:144-206 | Every single step keeps the position tied to the segmentation of the stream |
| Scan.Scanner.FindPacket | gps/scan/scan.go:98-206 | The loop ends on every reader, with at most one rescan for a bad checksum and fewer format switches than formats, and what it stops for is justified by the segmentation |
| Scan.FindingReturned | gps/scan/scan.go:98-210 | A justified finding makes a correct result |
| Scan.FindingExplained | gps/scan/scan.go:98-210 | Why a call returned, from what stopped it: which error is reported, and how many of the bytes scanned go with it |
| Scan.BetweenPackets | gps/scan/scan.go:20-26 | A result is taken for a timeout between packets exactly when the read that failed timed out without bytes and nothing had been scanned |
| Scan.Scanner.Scan | gps/scan/scan.go:98-210 | Any call: no byte is lost, repeated or reordered; a result with a format is a valid packet with the right verdict and the next token of the segmentation of the whole stream, whatever errors the reader reports; without transient errors so is every result. Without a failed read the result is a packet, or invalid bytes that end after 32 of them, before a possible start, or where a candidate no format takes is given up. With one, which it never reads past: a timeout in invalid data is none, and all of it is returned; one in a candidate returns the bytes before the next possible start without error, or the whole candidate with an error if there is none; a temporary error is always reported; any other ends the scan |
| ScanRuns.ScanAll | gps/app/gpsio/conn.go:273-292 | Scanning until the reader fails: under any chunks and errors the results and the buffer make up the bytes read; and, the only error being one that ends the stream, the results are the segmentation of the stream for every chunking if and only if that error arrives in a read of its own |
| ScanRuns.JoinedIsJoinedTokens | gps/scan/scan.go:98-210 | Results with adjacent invalid pieces joined depend only on the segmentation |
| HiddenStarts.JunkHidesNoStart | gps/scan/scan.go:144-225 | In the segmentation of any stream, every byte outside a packet at which a format could start begins a candidate that must be given up, or lies in one the stream ends inside |
| ScanRuns.EndLosesItsBytes | gps/scan/scan.go:113-141 | A reader whose last read brings a byte and the end, and one that brings them apart: the first gives other results, for all formats |
| Recognition.OneBytePacketMissed | gps/scan/scan.go:167-179 | Two formats and two bytes of which the first is a packet of the second format, that the scanner gives up |
| ScanRuns.IncompleteRun | gps/scan/scan.go:113-141 | Bytes left in the buffer when the reader fails are missing from the results, so these are not the whole segmentation |
| ConfigRequests.EvolvingWork | gps/gpsprot/configprotocol.go:200-216 | Packets and deadlines can only bring a list of requests nearer to its end, and any change does |
| ConfigRequests.RetryUsed | gps/gpsprot/configprotocol.go:438-467 | Each counted retry uses up one of those left |
| ConfigRecords.AbandonAccounted | gps/gpsprot/configprotocol.go:438-452 | A request given up has by then been sent as often as it may be: once if it changes the speed, else as often as the limit says, but at least once |
| ConfigDirector.Configurator.GenerateRequests | gps/gpsprot/configprotocol.go:120-132 | The generation contract: requests become ready or are skipped, new ones come at the end, and the first unfinished one can be acted on |
| ConfigDirector.Configurator.SetSentTime | gps/gpsprot/configprotocol.go:250-260 | The transitions on sending |
| ConfigDirector.Configurator.SetDeadlinePassed | gps/gpsprot/configprotocol.go:262-272 | The transitions when a deadline passes |
| ConfigDirector.Configurator.SetWontResend | gps/gpsprot/configprotocol.go:274-280 | The transition of a request given up, which is recorded |
| ConfigDirector.Configurator.MaybeSpeedChangeSucceeded | gps/gpsprot/configprotocol.go:282-288 | The transition of a confirmed speed change; being told is recorded |
| ConfigDirector.Configurator.ProcessPacket | gps/gpsprot/configprotocol.go:208-214 | Any of the automatic transitions, for any of the requests, and no others |
| ConfigDirector.Client.Yield | gps/app/gpscfg/gpscfg.go:526-560 | What a client may do with an action: a send is recorded, any packets and any time may pass, a wait reports the time, before it or after, and while no request changes only finitely many waits end before the deadline is reported; during an error only time passes unless packets may arrive, and a careful client leaves exposed requests alone. It is never given an action after it stopped, nor one that is not right |
| ConfigDirector.Director.AdvanceTimeTo | gps/gpsprot/configprotocol.go:346-358 | Every waiting request whose deadline is not after the new time is told once, and leaves its present state or gets a later deadline; no other request changes |
| ConfigDirector.Director.ProcessTimeouts | gps/gpsprot/configprotocol.go:360-372 | The same for the current time |
| ConfigDirector.Director.ValidPacketReceived | gps/gpsprot/configprotocol.go:375-395 | The requests told of a packet are exactly those recorded as speed changes, in the window and awaiting a response, each once and with the time of the packet; only they change, and they succeed |
| ConfigDirector.Director.EnsureRetriesSize | gps/gpsprot/configprotocol.go:538-545 | Growing the retry counts loses none of them |
| ConfigDirector.Director.AdvanceStart | gps/gpsprot/configprotocol.go:493-515 | Passing finished requests yields exactly one error for each failed one, in order, also when the client stops there |
| ConfigDirector.Director.UpdateWindow | gps/gpsprot/configprotocol.go:493-535 | The window then starts at the first unfinished request, and ends where it did or at the first request from there on that cannot be acted on; only errors are yielded |
| ConfigDirector.Director.YieldSend | gps/gpsprot/configprotocol.go:456-467 | A request of the window is sent at its own speed, only when its state allows and its retry is within the limit; a change of speed is recorded before the client is given it; the run gets nearer to its end |
| ConfigDirector.Director.Visit | gps/gpsprot/configprotocol.go:431-467 | One request of the window: its deadline is noted; or it is sent, at its own speed; or it is given up, exactly when it may be resent and changes the speed or the limit of tries is reached; nothing else is yielded, and either nothing changed or the run got nearer to its end |
| ConfigDirector.Director.ProcessWindow | gps/gpsprot/configprotocol.go:427-468 | A pass yields exactly the sends due for the requests as it comes to them, in order, and gives up exactly those whose tries are used up; the deadline found is the earliest of those seen; after a pass that changed nothing the window holds only waiting, finished or not-ready requests |
| ConfigDirector.Director.Wait | gps/gpsprot/configprotocol.go:471-480 | A wait for the earliest deadline makes something move, or is one of the finitely many cut short before a request changes |
| ConfigDirector.Director.Turn | gps/gpsprot/configprotocol.go:403-488 | One turn of the loop asks for more requests once, and yields errors, then the sends of a pass, then a wait if any deadline was seen, and nothing else; it ends the run or brings it nearer to its end |
| ConfigDirector.Director.Actions | gps/gpsprot/configprotocol.go:400-489 | Ends for every Configurator and client within their contracts. Every action is right when it is given: a request is sent at its own speed when its state allows, a wait is for the earliest deadline of the window, an error is of the request the window starts at. No request is sent more than max(1, maxRetries) times and none that changes the speed twice; every request given up had been sent just that often; the speed changes recorded are exactly those sent. At a normal end the list is complete, every request is finished and the errors yielded are exactly those of the failed requests, once each and in order; ErrorCount is the number of errors yielded; the run stops early only if the client does, or generation fails. Between two waits the client reported the time, and the first panic is reached only if it did not; the second only if the requests were at risk when last generated and the client was not careful |
| ConfigDirector.Configure | gps/app/gpscfg/gpscfg.go:520-528 | The same for a fresh director over any fresh requests: with time reported after waits, it ends in a panic only if the requests were at risk when last generated and the client was not careful |
| StuckRequests.StuckExactlyWhenAtRisk | gps/gpsprot/configprotocol.go:403-424 | Some change while errors are handled leaves the first unfinished request not ready if and only if, as generated, it is so already, or a failed request is about to be reported and one that is not ready follows only requests that are finished or can finish: by a passed deadline, or also by packets if the client receives any meanwhile |
| StuckRequests.StuckOnlyAtRisk | gps/gpsprot/configprotocol.go:481-487 | Requests get stuck only if they were so as generated, or were at risk and changed since |
| StuckRequests.OneReportGetsStuck | gps/gpsprot/configprotocol.go:349-372 | A single report of some time can leave the requests stuck if and only if one that is not ready follows only requests that are finished or finish by their deadlines |
| StuckRequests.GuardMeansStuck | gps/gpsprot/configprotocol.go:481-487 | With the window up to date the guard of the second panic holds exactly when the first unfinished request is not ready |
| StuckRequests.ClockGetsStuck | gps/gpsprot/configprotocol.go:493-515 | Requests within the contract that one passing of time while an error is handled leaves stuck |
| StuckRequests.SomeActionableIsNotEnough | gps/gpsprot/configprotocol.go:120-127 | Requests of which one is actionable, as the interface promises, and that are stuck as they are |
| Correlation.Correlator.NotifyMsgSent | gps/msgfile/correlate.go:147-164 | A sent message adds one request in its starting state and changes no other |
| Correlation.Correlator.ReadyToSend | gps/msgfile/correlate.go:178-196 | Sending is allowed exactly when no unfinished request awaits the same acknowledgement tag and key, or none is expected, or the key is empty |
| Correlation.Correlator.CorrelateAck | gps/msgfile/correlate.go:229-309 | An acknowledgement is taken by the one request it can belong to, with the right effect and report; with none or several nothing changes |
| Correlation.Correlator.CorrelateData | gps/msgfile/correlate.go:311-359 | Data is taken by the one request it fits, with the right effect and report; with none or several nothing changes |
| Correlation.Correlator.CorrelatePacket | gps/msgfile/correlate.go:199-220 | Which of the two a packet is tried as; an acknowledgement nobody claims is tried as data |
| Correlation.Correlator.CanAcceptMore | gps/msgfile/correlate.go:363-370 | More can be accepted exactly when some request is incomplete |
| Correlation.Correlator.Missing | gps/msgfile/correlate.go:414-432 | The requests, in order, that lack a firmly expected acknowledgement, and those that lack firmly expected data |
| CorrelationRuns.PacketChangesOne | gps/msgfile/correlate.go:199-359 | A packet changes at most one request, and only in the ways an acknowledgement or data may |
| CorrelationRuns.AdvanceKeeps | gps/msgfile/correlate.go:229-412 | Completeness is never undone, an acknowledgement or data is never awaited again, and a rejected request never changes |
| CorrelationRuns.RequestsOnlyAdvance | gps/msgfile/correlate.go:229-412 | The same between any two states of any run |
| CorrelationRuns.CompleteMeans | gps/msgfile/correlate.go:372-412 | A request is complete exactly when it was rejected, or has all it firmly expects and expects nothing open-ended |
| CorrelationRuns.DataTaken | gps/msgfile/correlate.go:311-359 | The one request that fits a data packet has its data if it expects one packet or several, and is complete if one packet is all it waits for; no other request changes, and the relevance reported follows from what it expects |
| CorrelationRuns.SingleDataOnce | gps/msgfile/correlate.go:311-359 | In every run a request that expects a single data packet takes at most one |
| CorrelationRuns.AckTaken | gps/msgfile/correlate.go:229-309 | The one request an acknowledgement fits: a rejection completes it with its error kept and reported, an interim answer leaves it incomplete, an acceptance completes it if it expects no separate data |
| CorrelationRuns.PacingMakesAcksUnambiguous | gps/msgfile/correlate.go:178-196 | In every state of every run in which messages were sent only when ReadyToSend allowed, at most one request fits an acknowledgement with a key, so it is never reported as ambiguous |
| CorrelationRuns.ReportedOnce | gps/msgfile/correlate.go:229-309 | In every run each request is reported accepted or rejected at most once, and has been exactly when its status says so |
| CorrelationRuns.NothingMissing | gps/msgfile/correlate.go:363-432 | When nothing more can be accepted, both lists of missing responses are empty |
| Septentrio.LastBreak | gps/msgfile/sept.go:72-78 | The last line break of a packet |
| Septentrio.GrammarClassified | gps/msgfile/sept.go:39-68 | The classifier follows the reply grammar, and rejects exactly what is outside it |
| Septentrio.NakErrorIs | gps/msgfile/sept.go:70-78 | The error of a rejection is its text without the prefix, the prompt and the white space around it |
| Septentrio.CommandsServed | gps/msgfile/sept.go:7-39 | In every state of every paced run with a receiver that keeps to the protocol, other traffic interleaved: a command is complete exactly when its last packet has come, it was reported exactly once from its first packet on, and the next may be sent exactly when none is being answered |
| Septentrio.ReplyAttributed | gps/msgfile/sept.go:39-99 | In every such run every reply packet is reported as the acknowledgement, rejection or continuation of the command it answers |
| HubEvents.CachedMeans | cmd/satpulsewb/sink.go:116-142 | An event is cached exactly when it is the last of its key and nothing after it made it stale |
| HubEvents.CachedKinds | cmd/satpulsewb/sink.go:41-68 | Which session events are cached: all but log, message traffic, responses and packets, and of the messages those of two kinds |
| HubEvents.ThinsMeans | cmd/satpulsewb/sink.go:135-148 | What an overflowed client was sent is a selection of what it wanted, in order |
| HubEvents.CachedIsCurrent | cmd/satpulsewb/sink.go:122-142 | Nothing from before the latest disconnect is cached but connection state, corrections state and writer event, and no base position from before the corrections last started or stopped |
| HubEvents.PrimedAgrees | cmd/satpulsewb/sink.go:165-191 | Whoever was primed with the cache and then sent every regular event has the cached event last, for every cached key |
| SseHub.Interest | cmd/satpulsewb/sink.go:97-108 | The counts tell whether any client wants packets, or anything else |
| SseHub.SseClient.Offer | cmd/satpulsewb/sink.go:135-148 | An event is queued exactly if fewer than 256 are; else the client is given up, its signal being closed only once |
| SseHub.Hub.FanOut | cmd/satpulsewb/sink.go:135-148 | Every client that wants the event is sent it, once, unless its queue holds 256 events and it takes none in time, and is given up only then; no other client is sent anything |
| SseHub.Hub.Emit | cmd/satpulsewb/sink.go:80-149 | Every client that wants an encodable event and has room is sent it and not given up; no other client changes, and nothing is encoded that no client wants and that is not cached. Keeps the counts, the caches equal to what the history of events says, and for each client: it was sent exactly the encodable events of its class since it subscribed, in order, or it overflowed after a backlog of 256, and is dead |
| SseHub.Hub.SkipEvent | cmd/satpulsewb/sink.go:95-108 | Leaving out the encoding when nobody wants an event skips no interested client |
| SseHub.Hub.Wants | cmd/satpulsewb/sink.go:153-160 | Packets are wanted if and only if some packets client is subscribed |
| SseHub.Hub.Subscribe | cmd/satpulsewb/sink.go:165-191 | A new client starts with the priming events of the moment it is registered |
| SseHub.Hub.PrimingEvents | cmd/satpulsewb/sink.go:178-190 | Exactly the cached events, each once: the writer event, the sticky events in their fixed order, the sticky messages |
| SseHub.Hub.Unsubscribe | cmd/satpulsewb/sink.go:220-227 | Removes the client and keeps the count |
| SseHub.Hub.BroadcastWriter | cmd/satpulsewb/sink.go:197-218 | Caches the writer event and sends it to every regular client that has room, which is not given up; packets clients are sent nothing |
| SseHub.ClientsAgree | cmd/satpulsewb/sink.go:80-218 | A regular client that has not overflowed has, for every cached key, been given the cached event last |
| WriteSeat.Server.constructor | cmd/satpulsewb/server.go:55-61 | The writer event starts with the seed, and there is no seat |
| WriteSeat.Server.Claim | cmd/satpulsewb/server.go:292-296 | A claim takes the lock and makes the value it drew the seat |
| WriteSeat.Server.Announce | cmd/satpulsewb/server.go:295-297 | The claim is broadcast under the lock, as one writer event with the seat |
| WriteSeat.Server.RequireSeat | cmd/satpulsewb/server.go:180-191 | Only the newest claimant may write, and nobody before the first claim; unless a value was drawn twice, no older claimant and no window that knows only the seed may |
| WriteSeat.Interleave | cmd/satpulsewb/server.go:292-344 | Any sequence of emissions, connections, disconnections, receipts and steps of claims has just the effects of the steps that can be taken on the events sent, the claims, the lock and the open connections, and keeps the server and the hub consistent |
| WriteSeat.WindowsKnowTheSeat | cmd/satpulsewb/server.go:287-344 | At all times a client that has not fallen behind agrees with the hub on every cached event, and, when no claim is between taking and announcing the seat, knows who holds it |
| WriteSeat.PrimedWithCurrent | cmd/satpulsewb/sink.go:122-134 | At all times what a late joiner is primed with is from after the latest disconnect |
| IncludeTrees.IntervalsAreDescent | gps/msgfile/msgfile.go:194-200 | An index lies strictly inside a file's interval exactly when its address extends the file's |
| IncludeDescent.AddressLeads | gps/msgfile/msgfile.go:194-200 | The address of an index leads through the children to the file at that index, and its interval is as long as that file's tree |
| IncludeDescent.DescentIsInclusion | gps/msgfile/msgfile.go:284-315 | In a tree that follows its includes and repeats no path, one file descends from another exactly when a chain of includes leads from that to it |
| IncludeTrees.OneTree | gps/msgfile/msgfile.go:284-315 | There is at most one tree that follows the includes of a file |
| IncludeLoader.Loader.CheckUnique | gps/msgfile/msgfile.go:317-324 | A path is accepted exactly when no loaded file has it |
| IncludeLoader.Loader.ProcessFile | gps/msgfile/msgfile.go:284-315 | Succeeds exactly when the includes make a tree that repeats no path, and then appends that tree depth first with its interval labels; it ends on all inputs |
| IncludeLoader.Loader.LoadTree | gps/msgfile/msgfile.go:276-282 | The same for a file by name |
| IncludeLoader.CyclesHaveNoTree | gps/msgfile/msgfile.go:284-324 | Files that include each other in a circle have no tree, so loading them ends in an error |
| TagOwnership.Owner | gps/msgfile/msgfile.go:381-388 | The owner of a tag is the first file in depth-first order that defines it |
| TagOwnership.FileTags | gps/msgfile/msgfile.go:352-373 | The tags of a file are those of its messages of all nine kinds |
| TagOwnership.TagOwners | gps/msgfile/msgfile.go:380-397 | All tags have an owner whose interval takes in their other definers, or there is an error |
| TagOwnership.NestedIsOverridden | gps/msgfile/msgfile.go:380-397 | The interval test holds exactly when each tag's first definer includes, directly or not, all its other definers |
| TagOwnership.MergeOwnedMsgs | gps/msgfile/msgfile.go:416-425 | Appends the messages whose tags the file owns |
| TagOwnership.MergeFiles | gps/msgfile/msgfile.go:375-414 | Succeeds exactly when the interval test holds for every tag; the result holds the owners' messages in depth-first order, for each kind; one file alone is its own result |
| TagOwnership.OneFilePerTag | gps/msgfile/msgfile.go:399-425 | Of each tag the result holds exactly the messages of the file that owns it |
| TagOwnership.Load | gps/msgfile/msgfile.go:223-245 | Loading succeeds exactly when the includes make a tree that repeats no path and every tag's first file includes all others that define it; and yields what the owners hold |
| TagOwnership.LoadStdin | gps/msgfile/msgfile.go:225-232 | The same for a file read from standard input |
| SaveGroups.KeyIsSymmetric | gpshwtest/characterize.py:577-578 | Both orders of a pair have one key |
| SaveGroups.MergeGroups | gpshwtest/characterize.py:624-635 | The groups partition the properties, and two are in one group exactly when a path of persists-together pairs joins them, whatever the order of the pairs |
| SaveCharacter.PartitionConsistent | gpshwtest/characterize.py:613-621 | Holds exactly when some partition joins every pair seen together and separates every pair of two properties seen apart |
| SaveCharacter.CombinationsAreAll | gpshwtest/characterize.py:584-586 | Every subset is among the selections tried |
| SaveCharacter.FindAnomalous | gpshwtest/characterize.py:583-593 | The anomalous set makes the rest consistent, and no smaller set does |
| SaveSurvey.SurveyResults | gpshwtest/characterize.py:568-580 | A pair is recorded if any result observed it, and as together exactly if none saw it apart, whichever of the two was probed |
| SaveSurvey.ListedInOrder | gpshwtest/characterize.py:564-565 | The refusals and anomalies of two series of results are those of the first and then those of the second |
| SaveSurvey.OneMoreListed | gpshwtest/characterize.py:564-565 | One more result adds its refusal, if it is one, and its anomalies, at the end |
| SaveSurvey.CharacterizeSave | gpshwtest/characterize.py:552-610 | The characterization: the unsaved properties, a least anomalous set, exactly the groups of more than one property or a single group when one covers everything, the refusals and the anomalies; None if there is nothing to say, and then nothing was refused and nothing anomalous |
| Epochs.NavEpochManager.EpochStarted | gps/gpsprot/msg.go:1326-1343 | The step a starting epoch makes on the manager's whole state, and what it emits |
| Epochs.NavEpochManager.EndOfProtocolEpoch | gps/gpsprot/msg.go:1353-1367 | The step the end of a protocol's epoch makes, and what it emits |
| Epochs.NavEpochManager.EndOfEpoch | gps/gpsprot/msg.go:1345-1351 | The step the end of an epoch makes, and what it emits |
| Epochs.NavEpochManager.FlushActive | gps/gpsprot/msg.go:1369-1411 | A flush takes all contributions under way together, records a sole contributor that ends its own epochs, and emits what they return |
| Epochs.ContributionsConserved | gps/gpsprot/msg.go:1331-1411 | In every run each processor's contributions are flushed exactly once and in order, but for one that may be under way |
| Epochs.RunOfEpochs | gps/gpsprot/msg.go:1331-1411 | The exact state and batches after any number of epochs of one protocol and then any number of two |
| Epochs.OnlyFirstJointEpochIsSplit | gps/gpsprot/msg.go:1326-1367 | Of the two-protocol epochs only the first can be split; every later contribution of the one is flushed together with that of the other from the same epoch |
| Epochs.FirstJointEpochIsSplit | gps/gpsprot/msg.go:1353-1367 | The first one is split whenever the one protocol had been alone before |
| Epochs.TogetherUnlessBehind | gps/gpsprot/msg.go:1331-1367 | From any state of the manager, the contributions of two protocols to every joint epoch after the first are kept together if and only if it is not behind: the first protocol is under way, or the other is and the first ended the last epoch alone, or neither is and the other did not |
| Epochs.StaysBehind | gps/gpsprot/msg.go:1331-1367 | From a state that is behind, each contribution of the one protocol is flushed with the other's from the epoch before, for ever |
| Epochs.StaysInStep | gps/gpsprot/msg.go:1331-1367 | From any other state, both contributions to each epoch after the first are flushed as one batch at the next |
| Epochs.LoneStartLeavesBehind | gps/gpsprot/msg.go:1331-1343 | One start of the other protocol alone leaves a fresh manager behind |
| EpochMerge.MergeNavEpoch | gps/gpsprot/msg.go:1258-1298 | The loop over the messages that are not nil, each filling in what those before it left unset |
| EpochMerge.GatheredMeans | gps/gpsprot/msg.go:1258-1293 | Scalar and optional fields come from the first message that has them set, and masks from all |
| EpochMerge.MergeMeans | gps/gpsprot/msg.go:1294-1297 | The solution dimension is dropped exactly below the fix level of a code solution, and nothing else of what was gathered changes |
| EpochMerge.FlushAndEmit | gps/gpsprot/msg.go:1383-1411 | The messages returned are merged with higher priority first, and emitted once, to the first contributor that has a handler |
| EpochMerge.EmissionMeans | gps/gpsprot/msg.go:1383-1411 | Nothing is emitted exactly if no contributor has a handler; else it goes to the handler of one of the highest priority that has, with the fix level of one of the highest priority that has one and the corrections of all |
| EpochMerge.OneEmission | gps/gpsprot/msg.go:1392-1411 | With no two contributors of one priority, what is emitted is determined |
| CorrKinds.ImpliesIsAntisymmetric | gps/gpsprot/msg.go:1004-1007 | Parents declared before children make the implications a partial order |
| CorrKinds.Closure | gps/gpsprot/msg.go:998-1011 | One pass over any table in which parents precede children computes the whole transitive closure |
| CorrKinds.Expand | gps/gpsprot/msg.go:1022-1031 | Expanding adds exactly what the bits imply |
| CorrKinds.Leaves | gps/gpsprot/msg.go:1033-1046 | Exactly the bits that no other bit implies are left |
| CorrKinds.UpIsClosure | gps/gpsprot/msg.go:1022-1031 | Expanding is extensive, monotone and idempotent |
| CorrKinds.UpOfTips | gps/gpsprot/msg.go:1033-1046 | The leaves imply all that the kinds do |
| CorrKinds.TipsOfUp | gps/gpsprot/msg.go:1033-1046 | Expanding adds no leaves |
| CorrKinds.Encode | gps/gpsprot/msg.go:1067-1069 | The encoding is the names of the leaves in declaration order |
| CorrKinds.Decode | gps/gpsprot/msg.go:1071-1086 | Decoding fails exactly on an unknown name, and else yields all that the named kinds imply |
| CorrKinds.DecodedIsExpanded | gps/gpsprot/msg.go:1067-1086 | Decoding the encoding of any kinds yields all that they imply |
| CorrKinds.TableIsWellFormed | gps/gpsprot/msg.go:967-986 | The program's table has each bit and name once, parents before children, and all 16 bits |

## Left out

- Scan.Scanner.Scan: the read times of packets (`TRead`) are not modelled, as a restart may go back to bytes of an earlier read.
- Scan.Scanner.Scan: makes no claim about possible starts hidden in the bytes returned at the end of the stream or with a temporary error, where the candidate is returned as it is.
- Scan.Scanner.OnReadError: the text that wraps a timeout in the middle of a packet is left out; it is an error of its own.
- Scan.Scanner.Scan: needs a buffer of positive size; with size zero the source never reads a byte.
- ConfigDirector.Client.Yield: between two changes of the requests a client cuts only finitely many waits short, any number each time; deadline extensions are bounded for each send, and the number of requests is bounded.
- ConfigDirector.Configurator.GenerateRequests: takes Skipped as final and leaves the first unfinished request actionable, as said above.
- ConfigDirector.Director.AdvanceTimeTo: that time goes backwards is excluded, as the source panics.
- Correlation.Correlator.Missing: returns the places of the messages sent, and correlations name a request by its place, not by pointer.
- Septentrio.NakErrorIs: packets are sequences of characters; bytes that are not valid UTF-8 are left out.
- SseHub.Hub.Emit: the JSON text of events is not modelled, only whether an event can be encoded; the events of a name stand for themselves.
- SseHub.Hub.BroadcastWriter: encoding the seat always succeeds.
- WriteSeat.Server.RequireSeat: that values drawn at random differ is the condition of its last clause, not a claim.
- IncludeLoader.Loader.LoadTree: path resolution and parsing are parameters: a map from path to well-formed file and a function for includes; the text of errors is left out.
- SaveCharacter.FindAnomalous: names are tried in an order left open, so which of several least sets is chosen is not fixed.
- SaveSurvey.CharacterizeSave: the order in which groups and names are sorted is left out.
- Epochs.NavEpochManager.FlushActive: the order among equal priorities, that of a map and an unstable sort, is left open; the first message is not changed in place, a merged one is returned; optional fields are opaque numbers by name.
- CorrKinds.Expand: a mask is the set of its bit indices, so picking the lowest bit with `v & -v` is choosing the least element.
- The concrete packet formats, checksums and vendor back ends: any format that keeps its contract is covered.
- The analyzers of the other protocols: the correlator is proved for any classification of packets and any analysis of messages.
- Tokens, HTTP routing, authentication, the single-use launch link and the connection bar.
- Getters, setters, flag and name tables, which would only add easy members.
- Floating-point code: geodesy, accuracies, quantum fitting.
