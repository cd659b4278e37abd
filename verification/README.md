# Verified models of Oyster's stateful cores

Models of the repository's most stateful parts, with proofs about all their inputs, schedules and runs.
Code that updates state in place is modelled in place (classes, arrays, loops) and tied to
specification functions or step relations; the theorems are about those.

| module | models |
|---|---|
| `NoiseCipher`, `ScallopWire`, `ScallopStream`, `ScallopPipe` | the polled, encrypted record stream of the Rust SDK, from one call up to two ends under every interleaving |
| `Handshake`, `HandshakeBuffers` | its four-message handshake with optional attestation both ways, and the last two messages byte by byte |
| `Market`, `Verdicts`, `JobTerms`, `Solvency` | the control plane's job: what its logs do, which kill, revive or end it, what they leave of it, and its 256-bit money |
| `Infra`, `JobManager`, `InfraCalls`, `OneInstance`, `ManagerExits`, `JobState` | its manager: timers, the calls it makes, a cloud that may fail on any call, restarts, whole runs |
| `LogSplice` | how the control plane reads an append-only log and spawns managers across reconnects |
| `Indexer`, `IndexerLoop` | the market indexer's tables and batches |
| `Replayers`, `WellFormedLogs` | its agreement with the job manager |
| `NonceQueue`, `NonceTasks` | the executor's transaction sender and resender on a shared nonce and deque |
| `Cbor`, `Attestation` | the mock attestation server's hand-laid CBOR/COSE document and a decoder that undoes it |
| `PacketFilter`, `RawProxy` | the raw proxy's re-framing and filtering of IP packets |
| `Cgroups`, `Calldata` | the executor's cgroup pool and worker ports, and how it gets code out of a transaction |
| `Bytes`, `ByteStream` | bytes, 16-bit integers and sequence facts; exact reads and whole writes over connections that may break |

`dafny verify dfyconfig.toml` checks everything (Dafny 4.11).

## Assumptions

- Noise is an ideal cipher: decryption under the same counter undoes encryption, lengths grow by
  16 bytes, messages are at most 65535 bytes (section 3 of the Noise Protocol Framework). In the
  handshake a message is known by its place in the message order. Nothing is said of other
  decryptions, so the pipe theorems are about a base that delivers bytes in order, in any pieces,
  with any Pending or error in between.
- A base stream that is Ready to write takes at least one byte, and a read that brings nothing is
  the end.
- Cloud: `get_job_instance` reports a live instance of the region if there is one, in its state;
  any call may fail, a launch may succeed and be reported as failed, instances may stop by
  themselves but none comes to life. Prices per gigabyte are not zero (the code divides by them).
- Time is counted in nanoseconds and the earliest ready branch of the select fires, the first listed
  one on ties; handlers take any time.
- The chain's log only grows. The RPC of the executor says NonceTooLow only of mined nonces and
  accepts none of those; one sender, one resender and one gas account.
- Certificates, the clock, hashing with signing, JSON parsing, attestation verification and the
  lists of allowed owners, rates and prices are parameters.

## Where the code departs from what it promises

Each is a proved member; the condition is exact where the row below says so.

- A client attestation of 1006 to 60000 bytes makes the server panic, although the client accepts up
  to 60000 (`Handshake.Agreement`). The client may already have returned Ok.
- Writing an empty buffer to a Scallop stream makes an empty record; reading it returns no bytes, which
  callers take for the end of the stream (`ScallopWire.EmptyRecordIffEmptyWrite`).
- The comment above `process_log` says a job that any event kills stays killed. It fails exactly when a later log
  revives the job, an accepted JobMetadataUpdated or JobOpened, and none after that kills it
  (`Verdicts.KilledForGoodUnlessRevived`; a concrete pair in `JobManager.MetadataRevivesKilledJob`).
- The number of processors is read as 2^31 - 1 when a job is opened and as 2 when it is updated if it does not fit 32
  bits, so that an update which names the same machine is refused and kills the job; this and the debug mode are the
  only such cases (`JobTerms.SameMachineAccepted`).
- The comment on a new manager's balance and rate takes them for 60 seconds. They are that only at rates around 10^12; at
  the rate of 1 that is set a manager that gets no log waits for 11 million years (`JobTerms.FreshJobLastsAMinuteIff`).
- A refused JobMetadataUpdated, and no other log, schedules a termination and ends the manager at once
  (`Verdicts.KillsAndGivesUpExactly`), so that nobody carries it out (`ManagerExits.RefusedUpdateLeavesInstance`). In
  general a manager that ends for good leaves a live instance exactly if its last log made it give up
  (`ManagerExits.LeftLiveIffGivenUp`).
- A job that stays paid for can come to have two live instances exactly if two of its logs revive it in different regions
  (`OneInstance.TwoInstancesIffTwoRegions`, a run in `OneInstance.TwoRegionsTwoInstances`); and a manager that returns
  0 leaves the first region's instance running if the job has been moved
  (`ManagerExits.DoneElsewhereLeavesInstance`).
- balance * 10^12 wraps at 2^256. A deposit up to a balance never shortens the paid time exactly if that product does
  not (`Solvency.MonotoneIffCovered`, an input in `Solvency.OverflowingDepositShortens`).
- A settlement that leaves 2^64 seconds or more paid moves the saturated deadline later
  (`Solvency.SettlementKeepsDeadline`).
- An indexer told to start at block 0 keeps sync block -1, read as 2^64 - 1, and always fails
  (`Indexer.NextRangeExactly`, `IndexerLoop.Life`).
- Timestamps from 2^64 on are saturated by the manager and truncated by the indexer
  (`Replayers.TimestampsAgreeExactly`).
- A packet without a whole source port, or even without a whole header, is judged by bytes an earlier packet left in
  the buffer (`PacketFilter.SettledIffOwnBytesDecide`, an input in `PacketFilter.FourBytesAreUnsettled`).
- A failed IP send carries the tag of the packet queue, so the caller panics instead of opening a new socket
  (`RawProxy.Proxy`, a packet that does it in `RawProxy.FailedSendPanics`). A length below 4 panics too; the process
  goes down exactly for a failed send or for a connection whose bytes are whole frames and then such a length
  (`RawProxy.PanicsIffSomeEndsShort`, an input in `RawProxy.ShortLengthPanics`).
- Code that ends in a zero byte loses it, since the length word of the transaction is ignored
  (`Calldata.ReadBackIff`).
- Worker ports are distinct for names spelled as the set-up script spells them, not for others
  (`Cgroups.PortsOfNamesDiffer`, `Cgroups.SpellingsCollide`); in general they are equal exactly if the numbers are
  (`Cgroups.PortsAreNumbers`); the 16-bit addition wraps in release builds,
  which keeps them distinct.

## Model

| member | source | states |
|---|---|---|
| NoiseCipher.Write | sdks/rs/src/scallop.rs:797-800 | succeeds exactly when message and tag fit the limit of 65535 bytes and the buffer and the counter is not exhausted; what it returns decrypts, under the same counter, to the payload |
| NoiseCipher.Read | sdks/rs/src/scallop.rs:748-751 | what it returns is the decryption under this counter, 16 bytes shorter than the message and no longer than the buffer |
| ScallopWire.Fills | sdks/rs/src/scallop.rs:720-729 | bytes appended to a partial length or body keep "consumed bytes = whole frames + the partial one" |
| ScallopWire.BeginsBody | sdks/rs/src/scallop.rs:734-743 | a complete two-byte length, parsed, is the head of the record it announces |
| ScallopWire.Decrypted | sdks/rs/src/scallop.rs:744-756 | a complete body that decrypts under the next counter makes one more whole record, none of it handed out yet |
| ScallopWire.Transmits | sdks/rs/src/scallop.rs:757-773 | handing out any part of the rest of a record keeps "delivered + rest = all records"; at its end the reader is at a record boundary |
| ScallopWire.Sends | sdks/rs/src/scallop.rs:834-842 | whatever part of the write buffer the base takes, sent + queued stays the wire form of all frames |
| ScallopWire.Enqueues | sdks/rs/src/scallop.rs:796-808 | a new record behind an empty write buffer extends the frames by its encryption and the accepted payloads by its payload |
| ScallopWire.FramesArePrefix | sdks/rs/src/scallop.rs:734-743 | frames are self-delimiting: any cut of a prefix of the stream into frames is a prefix of the frames that were sent |
| ScallopWire.DeliveredIsPrefix | sdks/rs/src/scallop.rs:707-847 | for every writer and reader history, the decrypted records are the first accepted payloads, whole, and the bytes delivered are a prefix of the bytes accepted |
| ScallopWire.StarvedTailIsShort | sdks/rs/src/scallop.rs:717-730 | a reader that waits for bytes holds less than a whole record, so it cannot have skipped one |
| ScallopWire.DrainedMeansDelivered | sdks/rs/src/scallop.rs:707-847 | once all is flushed and read and the reader asks for more, delivered equals accepted and the reader is at a record boundary |
| ScallopWire.IntactBodyDecrypts | sdks/rs/src/scallop.rs:744-756 | a complete body on an intact stream is the next frame that was sent, and decrypts to the next accepted payload |
| ScallopWire.EmptyRecordIffEmptyWrite | sdks/rs/src/scallop.rs:793-823 | a record is empty (and a read of it returns no bytes, like the end of the stream) exactly when the write was of an empty buffer |
| ScallopStream.ScallopStream.constructor | sdks/rs/src/scallop.rs:684-696 | the state a handshake leaves, with the counters where they are, satisfies every invariant of the read and the write side |
| ScallopStream.ScallopStream.PollRead | sdks/rs/src/scallop.rs:710-775 | terminates; delivers exactly what it returns; Pending exactly if a base call of this call was, with no byte lost, and none is made after it; a failure exactly if one failed or the cipher does not take the body; a short read ends a record; a read without bytes is the end of the base or an empty record read now |
| ScallopStream.ScallopStream.ReadPending | sdks/rs/src/scallop.rs:717-730 | the inner loop: ends as the last base call of it did, with the buffer full or at the end of a closed base, every byte taken from the base accounted for |
| ScallopStream.ScallopStream.Fill | sdks/rs/src/scallop.rs:722-729 | the bytes read land after those already there, within the buffer |
| ScallopStream.ScallopStream.Parse | sdks/rs/src/scallop.rs:734-756 | a complete length or body moves the mode down the order Length, Body, Read, which is why the loop ends |
| ScallopStream.ScallopStream.BeginBody | sdks/rs/src/scallop.rs:734-743 | the buffer for the body has the announced length |
| ScallopStream.ScallopStream.Decrypt | sdks/rs/src/scallop.rs:744-756 | decrypts in place under the receive counter, which advances with the records; on failure the mode stays |
| ScallopStream.ScallopStream.Transmit | sdks/rs/src/scallop.rs:757-773 | hands out at most the room given, in order; less than the room only at the end of the record |
| ScallopStream.ScallopStream.PollFlush | sdks/rs/src/scallop.rs:828-847 | terminates given a base that writes at least one byte; Ready, Pending or Failed exactly as the base's last call of this one, which for Ready is a flush after everything queued was written; the link gains exactly what is counted as sent |
| ScallopStream.ScallopStream.Sent | sdks/rs/src/scallop.rs:838-841 | a partial write removes exactly its bytes from the front of what is queued |
| ScallopStream.ScallopStream.PollWrite | sdks/rs/src/scallop.rs:781-824 | flushes first, then accepts exactly the first 64000 bytes or fewer; waits exactly if a base call did; fails exactly if one failed or the counter is exhausted, and accepts nothing then |
| ScallopStream.ScallopStream.Seal | sdks/rs/src/scallop.rs:791-803 | the buffer of 1000 spare bytes always holds message and length, and the 16-bit casts are exact; fails only with an exhausted counter |
| ScallopStream.ScallopStream.Enqueue | sdks/rs/src/scallop.rs:805-808 | the sealed record becomes the whole write buffer and the send counter advances |
| ScallopStream.ScallopStream.PollShutdown | sdks/rs/src/scallop.rs:860-871 | the link closes only with everything accepted sent; Ready, Pending or Failed exactly as the base's last call |
| ScallopPipe.PipeSafe | sdks/rs/src/scallop.rs:707-847 | over a shared link the reader's deliveries are a prefix of the writer's acceptances |
| ScallopPipe.PipeDrains | sdks/rs/src/scallop.rs:707-847 | with the writer flushed and the link empty, a waiting reader has delivered everything |
| ScallopPipe.CallWriter | sdks/rs/src/scallop.rs:781-871 | any call on the write side of one end keeps both ends linked; it waits or fails exactly if a base call of it did, or a write with the last counter used up; what is accepted, flushed and closed is said for each |
| ScallopPipe.CallReader | sdks/rs/src/scallop.rs:710-775 | any read on one end keeps both ends linked, waits exactly if a base call of it did, and fails only because one failed or with the last counter used up |
| ScallopPipe.Run | sdks/rs/src/scallop.rs:707-871 | for every script of calls on both ends, every partial, Pending or failing answer of both links and every read size: a prefix each way, and equality each way once that way is drained |
| ScallopPipe.Connect | sdks/rs/src/scallop.rs:496-508 | the two streams that a successful handshake leaves carry its counters and are such a pair, for every configuration and schedule |
| ScallopPipe.NeverStuck | sdks/rs/src/scallop.rs:744-756 | on an intact link a complete body always decrypts, short of an exhausted counter |
| ScallopPipe.CountersMatch | sdks/rs/src/scallop.rs:388-492 | after a successful handshake each end's counters are where the other's are |
| Handshake.FinRoundTrip | sdks/rs/src/scallop.rs:405-412 | the framing of CLIENTFIN and SERVERFIN is undone by the reader's length checks |
| Handshake.FinPayloadExactly | sdks/rs/src/scallop.rs:596-611 | for any bytes from a peer: a FIN is taken for what it carries exactly if its size field is that of the rest |
| Handshake.TakenExactly | sdks/rs/src/scallop.rs:261-277 | a packet is taken exactly if it is the kind awaited and fits the buffer, is a panic exactly if it does not fit, and is waited for exactly while there is none and the peer has not failed |
| Handshake.ClientTakesExactly | sdks/rs/src/scallop.rs:340-395 | for any packet in any state, what the client goes on with: version 0, 1 and a flag that it can serve; an attestation that its store's verifier takes |
| Handshake.ServerTakesExactly | sdks/rs/src/scallop.rs:545-655 | the same for the server: an empty first payload; a CLIENTFIN whose attestation is verified if it was asked for, with a flag that it can serve |
| Handshake.KeysAreVerified | sdks/rs/src/scallop.rs:613-628 | whatever a peer sends, a key enters a store only with an attestation that the store asked for and its verifier took for that key |
| Handshake.ClientMoves | sdks/rs/src/scallop.rs:313-509 | each step of the client keeps the invariant of reachable states and brings the end closer |
| Handshake.ServerMoves | sdks/rs/src/scallop.rs:522-697 | each step of the server keeps the invariant of reachable states and brings the end closer |
| Handshake.Reachable | sdks/rs/src/scallop.rs:303-697 | the invariant holds for every configuration (stores, authers, keys, verifiers) and every schedule of the two ends |
| Handshake.NeverDeadlocks | sdks/rs/src/scallop.rs:303-697 | in every reachable state both ends are finished or one can move, and every move decreases a measure |
| Handshake.Agreement | sdks/rs/src/scallop.rs:303-697 | both ends succeed exactly under a condition on the configuration; then the channels are empty and the counters match; a side that succeeds with a store has the peer's key in it; the server panics exactly on a requested attestation of 1006 to 60000 bytes, which its 1024-byte buffer cannot hold |
| Handshake.ServerFinWhenAwaited | sdks/rs/src/scallop.rs:460-492 | SERVERFIN is sent, or lies unread, only while the client awaits it; a client that awaits it has it under way, or a server that will send it, has yet to read the request, or has failed |
| ByteStream.WriteAll | sdks/rs/src/scallop.rs:295-297 | all of the data in order, or a prefix of it and an error exactly if a write failed, for every partial write |
| HandshakeBuffers.NoiseWrite | sdks/rs/src/scallop.rs:279-300 | assembles length and message in place and sends exactly the wire form of the payload; fails exactly if that does not fit, the counter is exhausted or a write failed |
| HandshakeBuffers.NoiseRead | sdks/rs/src/scallop.rs:261-277 | for any bytes to come: the payload in the buffer, a transport or decryption error, or a panic on a length beyond the buffer, exactly as specified |
| HandshakeBuffers.IncomingExactly | sdks/rs/src/scallop.rs:261-277 | that outcome by what the bytes are: cut off, longer than the buffer, not decrypting, or the payload |
| HandshakeBuffers.SendClientFin | sdks/rs/src/scallop.rs:397-448 | in buffers of 1024 or 65000 bytes: flag, size and payload are sent as one message, exactly if the attestation has at most 60000 bytes, the counter is not exhausted and no write failed; a longer one sends nothing |
| HandshakeBuffers.SendServerFin | sdks/rs/src/scallop.rs:655-680 | size and payload are sent as one message, exactly under the same conditions; an attestation beyond 60000 bytes sends nothing |
| HandshakeBuffers.ReadFin | sdks/rs/src/scallop.rs:596-611 | the checks of length and size field on the buffer decide as the specification does, for any bytes to come |
| HandshakeBuffers.FinCrosses | sdks/rs/src/scallop.rs:268-274 | what one end sends the other reads as sent exactly when message, tag and framing fit its buffer; otherwise it panics |
| HandshakeBuffers.FinLimits | sdks/rs/src/scallop.rs:522-523 | CLIENTFIN is read exactly up to 1005 bytes of attestation, SERVERFIN always |
| HandshakeBuffers.WireSizeIsExact | sdks/rs/src/scallop.rs:288-296 | the sizes the packet model uses are those on the wire |
| JobManager.LaunchKeeps | operator/control-plane/src/market.rs:753-790 | a launch into a region without a live instance leaves at most one, also when it is reported as failed |
| JobManager.ChangeKeeps | operator/control-plane/src/market.rs:688-814 | a change of infrastructure keeps at most one live instance for any failing calls, and a successful termination leaves none |
| JobManager.StepKeepsAtMostOne | operator/control-plane/src/market.rs:1258-1302 | so does every iteration of the event loop, and one that ends with 0 leaves none in the job's region |
| JobManager.AtMostOneInstance | operator/control-plane/src/market.rs:421-485 | over whole runs with any number of restarts, region by region: at most one live instance, and none in the job's region once a manager has returned 0 |
| OneInstance.RegionAfter | operator/control-plane/src/market.rs:896-911 | a log moves a job to another region only by an accepted JobOpened, to the region it names |
| OneInstance.StepKeepsHome | operator/control-plane/src/market.rs:1258-1302 | while the logs that revive it are of one region, a job that is to run is in that region, whatever the other logs name |
| OneInstance.LaunchesAreHome | operator/control-plane/src/market.rs:763-770 | so every launch is into that region |
| OneInstance.AtMostOneInstanceOfJob | operator/control-plane/src/market.rs:421-485 | at most one live instance of a job in the whole cloud, in every world of every run whose reviving logs are of one region, over failing calls and restarts; nothing live once a manager has returned 0 for a job still in that region |
| OneInstance.OpenedIsHome | operator/control-plane/src/market.rs:896-911 | if every JobOpened names one region, a job of which one was taken is there |
| OneInstance.TwoInstancesIffTwoRegions | operator/control-plane/src/market.rs:421-485 | over all runs of a job's logs, with restarts: two instances can come to be live exactly if two of the logs revive the job in different regions, for jobs that stay paid for while they wait to be launched, whatever the launch delay |
| OneInstance.DoubledNeedsTwo | operator/control-plane/src/market.rs:421-485 | one half of it, without that condition |
| OneInstance.Doubled | operator/control-plane/src/market.rs:1258-1302 | the other half: the run that takes the logs up to the first, launches, takes those up to the second and launches again, through heartbeats that get no answer |
| OneInstance.TwoRegionsTwoInstances | operator/control-plane/src/market.rs:896-911 | a run of two JobOpened that does so |
| OneInstance.OpeningsAreApart | operator/control-plane/src/market.rs:862-989 | its two logs are of the kind that the exact condition names |
| JobManager.ErrorExitsLeaveTheCloud | operator/control-plane/src/market.rs:1273-1278 | an exit with -1 or -2 makes no cloud call; a refused update has by then scheduled a termination |
| ManagerExits.ExitsExactly | operator/control-plane/src/market.rs:1273-1300 | -2 exactly for a log that makes the manager give up, -1 exactly for the end of the stream, 0 only after a termination that worked |
| ManagerExits.LeftLiveIffGivenUp | operator/control-plane/src/market.rs:475-483 | a manager that has ended for good leaves an instance live exactly if its last log made it give up, over any run before |
| ManagerExits.ScheduledAndDropped | operator/control-plane/src/market.rs:1141-1236 | of the logs that end the manager of a running job, the refused updates and no others schedule the termination that is then dropped |
| ManagerExits.RefusedUpdateLeavesInstance | operator/control-plane/src/market.rs:1160-1166 | a run that does so: opened, launched, refused, and the instance runs on |
| ManagerExits.DoneElsewhereLeavesInstance | operator/control-plane/src/market.rs:896-911 | a run that returns 0 with an instance live: the job was moved to another region by a JobOpened below the minimum rate |
| Verdicts.JudgeExactly | operator/control-plane/src/market.rs:862-1236 | which logs kill, revive and end, by guards on the log and the terms before it |
| JobTerms.OpenedTerms | operator/control-plane/src/market.rs:883-937 | what a usable JobOpened sets, by the log alone: type, region, memory, url, vcpus cut to 32 bits, money; family and debug mode kept if not named |
| JobTerms.OpenedPrice | operator/control-plane/src/market.rs:946-964 | after an allowed and priced one the minimum rate is that price, otherwise it is kept |
| JobTerms.OpenedBandwidth | operator/control-plane/src/market.rs:974-985 | the bandwidth is the most that the surplus covers at the first price of the region, or kept |
| JobTerms.OtherTerms | operator/control-plane/src/market.rs:990-1236 | no other log changes the machine, and only an accepted update the image, to the one it names |
| JobTerms.ScheduledExactly | operator/control-plane/src/market.rs:670-686 | a killing log schedules the termination at once, a reviving one the launch after the delay, no other changes the schedule; the update flag is set exactly by accepted updates |
| JobTerms.FreshJob | operator/control-plane/src/market.rs:571-593 | what a manager starts out with, field by field |
| JobTerms.FreshJobLastsAMinuteIff | operator/control-plane/src/market.rs:569-606 | the initial balance lasts a minute exactly at rates from 360/361 of 10^12 to 10^12; at the initial rate of 1, 359999999999700 seconds |
| JobTerms.OwnerRefused | operator/control-plane/src/market.rs:491-525 | an owner is refused for missing from a whitelist that is not empty or for being on the blacklist |
| JobTerms.UpdateRefused | operator/control-plane/src/market.rs:1155-1225 | an update is refused for anything missing, anything but the image that differs, or an image that does not, field by field |
| JobTerms.SameMachineAccepted | operator/control-plane/src/market.rs:922-1193 | an update with the metadata of the opening but for the image is accepted exactly if the image is new, the vcpus fit 32 bits, and the debug mode is named or was off |
| Verdicts.KillsAndGivesUpExactly | operator/control-plane/src/market.rs:1141-1236 | a log both schedules a termination and ends the manager exactly if it is a refused JobMetadataUpdated |
| Verdicts.ReplayReaches | operator/control-plane/src/market.rs:820-1242 | replaying several logs goes on exactly as long as none makes the manager give up |
| Verdicts.ReplayIntent | operator/control-plane/src/market.rs:820-1242 | whether a job is to run after any logs is the last killing or reviving one's word |
| Verdicts.KilledForGoodUnlessRevived | operator/control-plane/src/market.rs:857-860 | a killed job is to run again exactly if a later log revives it and none after that kills it |
| JobManager.NeverLaunchesInsolvent | operator/control-plane/src/market.rs:1286-1300 | when the infrastructure branch fires in launch mode the clock is more than five minutes before the end of the paid time |
| JobManager.StartsArePaidFor | operator/control-plane/src/market.rs:1258-1300 | whatever is launched, started or updated, by the infrastructure branch or the heartbeat, the balance pays by exact arithmetic for all time since the last settlement and five minutes more |
| JobManager.HeartbeatIsNotLate | operator/control-plane/src/market.rs:1280-1290 | the heartbeat fires no later than the end of the paid time less five minutes |
| JobManager.RunStartsArePaidFor | operator/control-plane/src/market.rs:421-485 | so every start of every run from a fresh job is paid for, over any restarts |
| JobManager.StartingBranches | operator/control-plane/src/market.rs:612-790 | only launch mode and the heartbeat start anything, and only the former launches |
| JobManager.KillsInsolventOnTime | operator/control-plane/src/market.rs:1286-1290 | the insolvency branch never fires early, and fires at once for a job past its deadline unless a log is waiting |
| JobManager.RevivesExactly | operator/control-plane/src/market.rs:862-1236 | a job that is to stop is to run after a log exactly if the log revives it: a usable, allowed JobOpened at or above the minimum rate, or an update that changes only the image |
| JobManager.KilledStep | operator/control-plane/src/market.rs:1264-1302 | with termination scheduled only logs and the infrastructure timer fire, nothing is started, and the job stays killed |
| JobManager.KillingSticks | operator/control-plane/src/market.rs:857-860 | in every run with any number of restarts, from where the job is not to run, nothing is ever launched, started or updated until a log revives it |
| JobManager.ProcessLogCore | operator/control-plane/src/market.rs:820-1242 | what a log does to terms and intent depends neither on time nor on what the cloud answered |
| JobManager.ReplayIgnoresTime | operator/control-plane/src/market.rs:820-1242 | so replaying the same logs at another time decides the same |
| JobManager.RunIsReplay | operator/control-plane/src/market.rs:857-860 | in every run, over restarts, timers and failing calls, a manager's terms are those of replaying the logs it has taken; it intends a launch only if the replay does, and exactly then while insolvency has not fired |
| JobManager.StepsLikeReplay | operator/control-plane/src/market.rs:1258-1302 | one iteration of the loop against one more log of the replay |
| JobManager.MetadataRevivesKilledJob | operator/control-plane/src/market.rs:857-860 | the comment's promise fails: a job opened below its minimum rate and then updated is killed by a connected manager and launched by one that replays |
| JobManager.StepKeepsIntent | operator/control-plane/src/market.rs:1264-1302 | a job that is not to be launched is killed or untouched, so the heartbeat never fires for it |
| InfraCalls.FiresFirst | operator/control-plane/src/market.rs:1258-1300 | the branch of the select that fires is ready, none is ready before it, and none listed before it as soon; when each is ready, in seconds |
| InfraCalls.AsksFirst | operator/control-plane/src/market.rs:702-712 | a change of infrastructure asks for the instance of the job's region first and does nothing on no answer |
| InfraCalls.WorkingIsUpdated | operator/control-plane/src/market.rs:714-741 | a working instance is taken as it is, unless an update waits: then the image, with the job's url, vcpus and memory, is sent to it, and the flag is cleared and the change a success exactly if that worked |
| InfraCalls.BrokenIsReplaced | operator/control-plane/src/market.rs:743-790 | a stopping or stopped instance is terminated and then replaced, or the change fails |
| InfraCalls.MissingIsLaunched | operator/control-plane/src/market.rs:759-790 | where there is none one is launched with the job's type, family, region, memory, vcpus and bandwidth, and its enclave is run on it with the job's image; success exactly if the launch succeeded |
| InfraCalls.StoppedIsTerminated | operator/control-plane/src/market.rs:791-814 | to stop, whatever is there and not already going is terminated, success exactly if that worked |
| InfraCalls.ChangeIsRetried | operator/control-plane/src/market.rs:688-699 | a change that failed is due again two seconds later, one that worked is not, and only a termination that worked ends the manager |
| InfraCalls.HeartbeatHeals | operator/control-plane/src/market.rs:612-663 | a stopped enclave is run again with the job's image, a stopped instance is launched again at once if the job pays its price, and nothing else changes |
| InfraCalls.UpdatedImageIsSent | operator/control-plane/src/market.rs:1226-1234 | over runs: after an accepted update, as long as its image is the job's, either launching is still due or the image has been sent, in an update that worked or with an enclave that was started |
| InfraCalls.DoneMeansSent | operator/control-plane/src/market.rs:719-737 | so a manager that is to run its job and has no change left to make has sent the image |
| JobState.JobState.constructor | operator/control-plane/src/market.rs:561-594 | the initial state |
| JobState.JobState.ScheduleLaunch | operator/control-plane/src/market.rs:670-677 | sets time, intent and schedule and nothing else |
| JobState.JobState.ScheduleTermination | operator/control-plane/src/market.rs:679-686 | sets time, intent and schedule and nothing else |
| JobState.JobState.HeartbeatCheck | operator/control-plane/src/market.rs:612-663 | the calls it makes and the state it leaves, for all replies, are those of the relation the whole-run theorems use |
| JobState.JobState.ChangeInfra | operator/control-plane/src/market.rs:688-699 | success clears the schedule, a failure is retried two seconds after it, for all replies of the cloud |
| JobState.JobState.ChangeInfraImpl | operator/control-plane/src/market.rs:701-814 | the calls in order with their arguments, the instance recorded and the outcome, for every intent and all replies |
| JobState.JobState.LaunchNew | operator/control-plane/src/market.rs:763-790 | a launch and then the enclave on it, whose failure is left to the heartbeat |
| JobState.JobState.LookUpMinRate | operator/control-plane/src/market.rs:948-960 | the nested search loops find the rate the specification names |
| JobState.JobState.SetBandwidth | operator/control-plane/src/market.rs:974-985 | the search loop sets the bandwidth of the first matching card and stops |
| JobState.JobState.ProcessOpened | operator/control-plane/src/market.rs:862-989 | field by field and exit by exit, the result is that of the specification |
| JobState.JobState.ProcessLog | operator/control-plane/src/market.rs:820-1242 | for every log and the end of the stream the new state and return code are those of the specification |
| JobState.Iterate | operator/control-plane/src/market.rs:1258-1302 | one pass of the biased select is a step of the relation for what the stream of logs offered in it, making exactly the calls of that step |
| JobState.JobManagerOnce | operator/control-plane/src/market.rs:1244-1311 | the loop is a run of the relation from a fresh job that ends with the result it returns, with one look at the stream for each iteration and exactly the calls of the run |
| JobState.JobManagerLoop | operator/control-plane/src/market.rs:421-485 | a run of the relation with restarts, a new manager after each end of the stream as long as there are connections, every log offered and every call made accounted for; if its reviving logs are of one region never more than one live instance in the whole cloud, and nothing live of a job that is done there |
| Infra.CallKeepsAtMostOne | operator/control-plane/src/market.rs:46-110 | every call but a launch keeps a region at most singly occupied, and an empty one empty |
| Infra.LaunchIntoEmpty | operator/control-plane/src/market.rs:51-60 | a launch, reported or not, fills an empty region at most once |
| Infra.TerminateTheOne | operator/control-plane/src/market.rs:62-67 | a termination that succeeds empties a singly occupied region |
| Solvency.QuotientIsGreatest | operator/control-plane/src/market.rs:596-610 | the division in the deadline is the greatest affordable number of seconds, both ways |
| Solvency.PaidSecondsExact | operator/control-plane/src/market.rs:601-607 | below the overflow of the product the code's paid time is the exact quotient, saturated |
| Solvency.ExactIffCovered | operator/control-plane/src/market.rs:601-607 | the paid time is the exact quotient at every rate exactly when the product does not overflow |
| Solvency.SmallBalancesAreCovered | operator/control-plane/src/market.rs:604 | balances below 2^216 do not overflow |
| Solvency.DeadlineGrowsWithBalance | operator/control-plane/src/market.rs:1036-1062 | a deposit never shortens the paid time and a withdrawal never lengthens it |
| Solvency.DeadlineShrinksWithRate | operator/control-plane/src/market.rs:1086-1087 | a higher rate never lengthens it |
| Solvency.SettlementKeepsDeadline | operator/control-plane/src/market.rs:1007-1008 | a settlement charged rounded up moves the deadline earlier by at most one balance unit's worth of time, and never later exactly if what is left does not saturate |
| Solvency.ExactSettlement | operator/control-plane/src/market.rs:1007-1008 | the same two bounds in exact arithmetic, for any balance |
| Solvency.OverflowingDepositShortens | operator/control-plane/src/market.rs:604 | beyond the covered balances a deposit of one unit can end the paid time |
| Solvency.MonotoneIffCovered | operator/control-plane/src/market.rs:1036 | deposits up to a balance never shorten the paid time, at any rate, exactly if the balance's product does not overflow |
| Solvency.SolventMeansPaid | operator/control-plane/src/market.rs:596-610 | time the code counts as paid is paid by exact arithmetic, whatever wrapped |
| Solvency.BandwidthIsGreatest | operator/control-plane/src/market.rs:975-984 | the bandwidth bought is the most that the surplus over the minimum rate covers, both ways, saturation included |
| Solvency.GBRateIsFirst | operator/control-plane/src/market.rs:974-985 | the first price for the region decides |
| Solvency.NoCardKeepsBandwidth | operator/control-plane/src/market.rs:974-985 | without one the bandwidth is kept |
| Solvency.WrapsAround | operator/control-plane/src/market.rs:1004-1065 | deposits, withdrawals and settlements wrap at both ends of a 256-bit word and undo each other |
| Solvency.MinRateIsFirst | operator/control-plane/src/market.rs:948-965 | the minimum rate comes from the first entry for the region, and is missing exactly when that has no card for the instance or there is no entry |
| Solvency.CardIsFirst | operator/control-plane/src/market.rs:951-957 | within the entry the first matching card decides |
| LogSplice.UpToIsPrefix | operator/control-plane/src/market.rs:405-412 | the old logs up to a block are a prefix of an append-only log |
| LogSplice.SpliceIs | operator/control-plane/src/market.rs:383-417 | what a connection delivers, for any subscription point, cutoff and end |
| LogSplice.SpliceIsPrefix | operator/control-plane/src/market.rs:367-419 | from a node whose newest block is not older than its subscription every log comes exactly once, in order |
| LogSplice.GapIffInconsistent | operator/control-plane/src/market.rs:379-381 | that reliance is exact: otherwise a log between cutoff and subscription is never seen |
| LogSplice.RunOnce | operator/control-plane/src/market.rs:336-364 | one manager per item of the stream, counted |
| LogSplice.Run | operator/control-plane/src/market.rs:277-320 | over any number of reconnects the managers spawned are one for each of the first so many jobs of the log, in order |
| LogSplice.FurthestIsAttained | operator/control-plane/src/market.rs:281-321 | that number is the largest of what the connections brought, and some connection brought it |
| Indexer.FoldAppend | contracts/indexer/src/lib.rs:113-121 | folding batches one after another is folding their logs at once |
| Indexer.BalanceChange | contracts/indexer/src/handlers/mod.rs:92-139 | a log changes a balance by its transaction row or by what it settles, and by nothing else |
| Indexer.HandleConserves | contracts/indexer/src/handlers/job_settled.rs:42-61 | each log keeps balance = deposits - withdrawals - settlements |
| Indexer.HandleKeepsReferential | contracts/indexer/src/handlers/lock_created.rs:54-81 | each log keeps requests and transactions on existing jobs and transactions unique by block and index |
| Indexer.FoldConserves | contracts/indexer/src/handlers/mod.rs:92-139 | after any successful run every balance is accounted for and every request is for a job |
| Indexer.ClosedRowsAreFinal | contracts/indexer/src/handlers/job_closed.rs:31-47 | a closed job's row never changes again and no row disappears, over any further logs |
| Indexer.OpenedRow | contracts/indexer/src/handlers/job_opened.rs:18-100 | the row and the transaction that a JobOpened leaves, field by field |
| Indexer.OriginIsFinal | contracts/indexer/src/handlers/mod.rs:92-139 | owner, provider and time of creation of a row never change, over any logs |
| Indexer.RequestIs | contracts/indexer/src/handlers/lock_created.rs:16-80 | a request is what its lock says, with the low 64 bits of its time, from the lock's creation to its deletion |
| Indexer.RefusedExactly | contracts/indexer/src/handlers/mod.rs:92-139 | which logs are refused in which tables, event by event |
| Indexer.LogsInSplit | contracts/indexer/src/lib.rs:97-105 | consecutive ranges hold the logs of their union |
| Indexer.NextRangeExactly | contracts/indexer/src/lib.rs:85-101 | the next range is the right one exactly when the sync block is a real block behind the latest and the range size neither zero nor overflowing; a start block of 0 leaves sync block -1 and nothing is ever fetched |
| Indexer.BatchKeepsSynced | contracts/indexer/src/lib.rs:113-123 | a committed batch keeps "tables = fold of the logs from the start block to the sync block" |
| Indexer.CatchesUp | contracts/indexer/src/lib.rs:75-123 | passes that go through bring the sync block to a latest block they keep reading, a range each |
| IndexerLoop.Database.InsertTransaction | contracts/indexer/src/handlers/job_deposited.rs:68-78 | fails exactly on a duplicate key |
| IndexerLoop.Database.UpdateOpenJob | contracts/indexer/src/handlers/job_settled.rs:42-53 | changes the row exactly when it exists and is open, and says so |
| IndexerLoop.Database.HandleJobOpened | contracts/indexer/src/handlers/job_opened.rs:63-91 | the job row and the deposit row, or an error |
| IndexerLoop.Database.HandleTransfer | contracts/indexer/src/handlers/job_deposited.rs:47-78 | balance and transaction row of deposits and withdrawals, or an error |
| IndexerLoop.Database.HandleLockCreated | contracts/indexer/src/handlers/lock_created.rs:29-81 | inserts the request of an open job, fails on a duplicate or a closed job, skips other locks |
| IndexerLoop.Database.Handle | contracts/indexer/src/handlers/mod.rs:92-139 | the dispatch: errors exactly where the specification has none, and its tables otherwise |
| IndexerLoop.Database.Transact | contracts/indexer/src/lib.rs:113-121 | a batch with its sync block, or nothing: committed exactly if no log is refused and the process does not die |
| IndexerLoop.Database.StartFrom | contracts/indexer/src/lib.rs:127-134 | raises the sync block to just before the start, never lowers it |
| IndexerLoop.NextRange | contracts/indexer/src/lib.rs:97-101 | the range starts right after the sync block and ends within the latest |
| IndexerLoop.ProcessRange | contracts/indexer/src/lib.rs:105-123 | a synced database stays synced: at the end of the range exactly if the query was answered, no log was refused and the process lived, and unchanged otherwise |
| IndexerLoop.EventLoop | contracts/indexer/src/lib.rs:58-125 | over any number of passes the database holds exactly the logs up to its sync block; each pass moves that by the range size up to the latest block read, and the loop fails exactly for a missing answer, one that is behind, a failed query, a refused log or a crash |
| IndexerLoop.RunIndexer | contracts/indexer/src/main.rs:59-61 | one run of the program: the start block takes effect only on a database behind it, then the loop makes its progress from there |
| IndexerLoop.Life | contracts/indexer/src/lib.rs:58-134 | over any runs of the program, each with its own range size and start block no later than the first's: the database stays equal to the fold of the chain from the first start block, and every run asks for the latest block; from start block 0 nothing is ever fetched |
| Replayers.JudgeMoney | operator/control-plane/src/market.rs:880-1133 | what each log does to balance, settlement time and both rates; metadata and refusals do nothing to them |
| Replayers.RowChange | contracts/indexer/src/handlers/mod.rs:92-139 | what each event does to the row and the request of one job; other jobs' events do nothing |
| Replayers.EventKeepsAgreement | contracts/indexer/src/handlers/job_revise_rate_finalized.rs:40-48 | one event of a well-formed log keeps manager and indexer in agreement, in every phase of the pairing of rate and lock events |
| Replayers.ReplayersAgree | operator/control-plane/src/market.rs:862-1140 | for every log that the indexer accepts and the manager does not give up on, the two replayers agree on the job, in every phase of its pairs |
| Replayers.AgreementBetweenPairs | operator/control-plane/src/market.rs:1086-1133 | between pairs: equal balance and settlement time, the indexer's rate is the original rate, the manager's rate is the pending request or else that rate |
| WellFormedLogs.IndexerAccepts | contracts/indexer/src/handlers/mod.rs:92-139 | the indexer accepts every well-formed log of the market: no handler errors |
| WellFormedLogs.CloseInAnyOrder | contracts/indexer/src/handlers/lock_deleted.rs:39-41 | the three events of a close end the job in whatever order they come, both LockDeleted first, last or around JobClosed |
| WellFormedLogs.ClosesAreWellFormed | contracts/indexer/src/handlers/lock_deleted.rs:39-41 | so a well-formed log of the market stays so under every order of a close |
| WellFormedLogs.OtherEventsGoOn | operator/control-plane/src/market.rs:1129-1133 | a finalization confirms the rate the manager holds, and no event but JobOpened and JobMetadataUpdated can make it give up |
| WellFormedLogs.ManagerGoesOn | operator/control-plane/src/market.rs:820-1242 | so the manager never ends with -2 on a well-formed log whose metadata it accepts |
| WellFormedLogs.WellFormedLogsAgree | operator/control-plane/src/market.rs:1086-1133 | the agreement between pairs, from well-formedness of the log alone |
| WellFormedLogs.LiveManagerAgrees | operator/control-plane/src/market.rs:421-485 | and it holds of a manager at work, at any point of any run that has taken the job's logs, after insolvency, failing calls and restarts |
| Replayers.TimestampsAgreeExactly | operator/control-plane/src/market.rs:884 | the two read a timestamp alike exactly when it fits in 64 bits or ends in the largest limb |
| NonceQueue.StepKeepsOrder | serverless/executor/src/event_handler.rs:285-304 | each atomic section of either task keeps the deque increasing and the counter ahead of it |
| NonceQueue.StepKeepsTracked | serverless/executor/src/event_handler.rs:519-732 | a nonce that is mined, queued or in the resender's hands stays so |
| NonceQueue.StepKeepsInv | serverless/executor/src/event_handler.rs:215-305 | the full invariant, for both tasks and the chain |
| NonceQueue.StepKeepsCounts | serverless/executor/src/event_handler.rs:221-239 | the counter never decreases, and the chain is at most one ahead of it |
| NonceQueue.NoNonceGap | serverless/executor/src/event_handler.rs:195-305 | in every reachable state each nonce below the counter is mined, queued or in hand, and the first unmined one is what the resender comes to next |
| NonceQueue.QueueIsOrdered | serverless/executor/src/event_handler.rs:291-303 | in every reachable state the deque is strictly increasing, across push_back, pop_front and push_front |
| NonceQueue.ResenderReleasesOnlyMined | serverless/executor/src/event_handler.rs:575-731 | a deadline, GasTooHigh or ContractExecution leads to the dummy transaction, and a nonce is let go only when mined or put back in front |
| NonceQueue.ChainSees | serverless/executor/src/event_handler.rs:241-304 | what each section submits: accepted transactions, and those whose answer was lost, may be mined, and only the chain drops one |
| NonceQueue.AlwaysGetsThrough | serverless/executor/src/event_handler.rs:519-732 | from every reachable state with a sent nonce not mined, resender and chain alone can get the next one mined: nothing blocks the queue for good |
| NonceQueue.Executor.SenderStep | serverless/executor/src/event_handler.rs:215-305 | each atomic section of the sender updates the shared state as the machine says |
| NonceQueue.Executor.ResenderStep | serverless/executor/src/event_handler.rs:519-732 | each atomic section of the resender updates the shared state as the machine says |
| NonceQueue.Executor.Interleave | serverless/executor/src/event_handler.rs:195-310 | any interleaving of both tasks and the chain keeps the invariant, and leaves the state of its actions in order |
| NonceTasks.SendExecutionOutput | serverless/executor/src/event_handler.rs:195-306 | the retry loop with its update flag, the other task and the chain acting at every await: queued exactly if the last answer accepts it, under the nonce it was sent with and tracked, the counter right after it; retried under the same nonce, or after NonceTooLow under a later one; given up exactly on a hopeless answer or when the deadline has used up the turns |
| NonceTasks.UpdateNonce | serverless/executor/src/event_handler.rs:221-239 | a fetch that fails leaves the counter, one that succeeds sets it to the count, which is later |
| NonceTasks.SendOnce | serverless/executor/src/event_handler.rs:241-304 | one attempt: a job output is sent with the counter as its nonce, and each answer of the RPC leads to its outcome: queued, again with or without a fresh nonce, or over |
| NonceTasks.ResendPending | serverless/executor/src/event_handler.rs:519-732 | one turn of the resender, with the front of the deque: nothing is sent if the receipt is found, dummies only if the replacements gave way; it lets go of its nonce only when that is mined or back in the deque |
| NonceTasks.Resend | serverless/executor/src/event_handler.rs:568-657 | the replacement loop goes on to the dummy exactly if the last answer was hopeless or the deadline used up all turns; an accepted replacement is back in front of the deque, and NonceTooLow ends it |
| NonceTasks.SendDummy | serverless/executor/src/event_handler.rs:664-731 | the dummy loop ends only with the nonce mined, exactly on a confirmation or NonceTooLow, or with all the turns there were |
| Cbor.HeadRoundTrip | attestation/server-custom-mock/src/lib.rs:80-105 | heads of every width decode to their major type and argument |
| Cbor.RoundTrip | attestation/server-custom-mock/src/lib.rs:80-146 | every item decodes as printed, whatever follows it |
| Cbor.LookupAt | attestation/server-custom-mock/src/lib.rs:129-138 | a value is found under its key if no earlier key is the same |
| Attestation.PayloadSizeIsExact | attestation/server-custom-mock/src/lib.rs:33-71 | the sizes added up before allocation are the size of the encoding |
| Attestation.ProtectedNamesES384 | attestation/server-custom-mock/src/lib.rs:142 | the protected header is the map from 1 to -35 |
| Attestation.SigStructureLayout | attestation/server-custom-mock/src/lib.rs:148-164 | the hashed bytes are the Sig_structure of section 4.4 of RFC 9052 |
| Attestation.DocumentLayout | attestation/server-custom-mock/src/lib.rs:140-146 | header, payload and signature fields are a COSE_Sign1 array, section 4.2 of RFC 9052 |
| Attestation.Put | attestation/server-custom-mock/src/lib.rs:82-105 | a slice copy lands exactly in its range and extends the run of writes |
| Attestation.EncodeOptional | attestation/server-custom-mock/src/lib.rs:107-127 | the bytes of an optional byte string, in its shortest form, and their number |
| Attestation.WriteLabels | attestation/server-custom-mock/src/lib.rs:80-85 | bytes 10 to 76 are the map head and the first two entries |
| Attestation.WriteTimestamp | attestation/server-custom-mock/src/lib.rs:86-88 | bytes 76 to 95 are the timestamp entry, the time cut to 64 bits |
| Attestation.WritePcrs | attestation/server-custom-mock/src/lib.rs:89-96 | bytes 95 to 917 are the sixteen registers |
| Attestation.WriteCertificates | attestation/server-custom-mock/src/lib.rs:97-105 | bytes 917 to 1815 are both certificates |
| Attestation.WriteClaims | attestation/server-custom-mock/src/lib.rs:129-138 | the three optional fields follow, the final offset is 10 + the payload size, and the payload is complete |
| Attestation.WriteClaim | attestation/server-custom-mock/src/lib.rs:130-132 | a key and its optional byte string, and the offset after them |
| Attestation.WriteCose | attestation/server-custom-mock/src/lib.rs:142-145 | the first ten bytes and the signature head, the payload untouched |
| Attestation.GetAttestationDoc | attestation/server-custom-mock/src/lib.rs:11-175 | for all inputs the result is the encoded document or the first failing check, every byte of the buffer written |
| Attestation.DecoderUndoesPrinter | attestation/server-custom-mock/src/lib.rs:11-175 | decoding the document gives back exactly public key, user data and nonce (absent apart from empty), module, digest, time, registers, both certificates, payload, the signed bytes and the signature |
| Attestation.RegistersSaid | attestation/server-custom-mock/src/lib.rs:91-96 | the sixteen registers are 48 bytes each of the register's number |
| Attestation.RefusedExactly | attestation/server-custom-mock/src/lib.rs:17-77 | a document is refused for the first claim beyond 65535 bytes, then for a size beyond 65535, 1940 bytes and the claims, then for want of a signature, and for nothing else |
| Attestation.ClaimSize | attestation/server-custom-mock/src/lib.rs:33-71 | what a claim takes of that: its bytes and a head of one, two or three, or one byte if absent |
| Attestation.DocumentsDetermineClaims | attestation/server-custom-mock/src/lib.rs:11-175 | equal documents carry equal claims and times |
| PacketFilter.MaskIsInterval | networking/raw-proxy/src/vsock_to_ip_raw_outgoing.rs:133-165 | testing a prefix mask is membership in an interval of addresses |
| PacketFilter.DroppedIffReserved | networking/raw-proxy/src/vsock_to_ip_raw_outgoing.rs:130-168 | the seventeen mask tests drop exactly the listed CIDR blocks, as intervals |
| PacketFilter.PortAfterHeader | networking/raw-proxy/src/vsock_to_ip_raw_outgoing.rs:120-177 | for every header length the verdict is that of the source, the destination and the two bytes after as many words as the header has |
| PacketFilter.SettledIffOwnBytesDecide | networking/raw-proxy/src/vsock_to_ip_raw_outgoing.rs:120-177 | for frames of any size: the fate depends on the frame's own bytes alone exactly if they forbid it or ensure it |
| PacketFilter.WholeHeader | networking/raw-proxy/src/vsock_to_ip_raw_outgoing.rs:170-177 | with a whole IPv4 header: settled exactly if the packet carries its port, is rejected earlier, or has a first port byte that decides |
| PacketFilter.AcceptedCanPass | networking/raw-proxy/src/vsock_to_ip_raw_outgoing.rs:120-177 | a frame that some buffer lets out has no wrong byte of the source address, no destination of which every completion is reserved and no shut port |
| PacketFilter.OpenBuffer | networking/raw-proxy/src/vsock_to_ip_raw_outgoing.rs:120-177 | and some buffer lets out every frame of that kind |
| PacketFilter.ShortFramesAreNeverSafe | networking/raw-proxy/src/vsock_to_ip_raw_outgoing.rs:111-128 | no frame of less than 16 bytes is let out by every buffer, so such a frame is settled exactly if none does |
| PacketFilter.UnsettledSways | networking/raw-proxy/src/vsock_to_ip_raw_outgoing.rs:99-177 | otherwise bytes left by earlier packets in the reused buffer let it out or not |
| PacketFilter.FourBytesAreUnsettled | networking/raw-proxy/src/vsock_to_ip_raw_outgoing.rs:104-117 | the shortest frame the loop takes is one of them |
| ByteStream.Inbound.Read | networking/raw-proxy/src/vsock_to_ip_raw_outgoing.rs:106-117 | a read brings any number of the bytes that are there, in order |
| ByteStream.ReadExact | networking/raw-proxy/src/vsock_to_ip_raw_outgoing.rs:106-117 | fills the range exactly when that many bytes come, for every chunking |
| RawProxy.ReadFrame | networking/raw-proxy/src/vsock_to_ip_raw_outgoing.rs:105-117 | one frame: the packet laid over the old buffer, a cut connection, or a length below 4 |
| RawProxy.SendFrame | networking/raw-proxy/src/vsock_to_ip_raw_outgoing.rs:180-187 | the packet goes out in one datagram of a whole socket, and byte for byte otherwise |
| RawProxy.HandleConn | networking/raw-proxy/src/vsock_to_ip_raw_outgoing.rs:94-189 | sends what the specification of re-framing says for the bytes the connection delivers |
| RawProxy.Proxy | networking/raw-proxy/src/vsock_to_ip_raw_outgoing.rs:208-233 | the process panics exactly for a failed send or a panicking connection; as long as no send fails, everything all connections brought has been sent |
| RawProxy.PanicsIffShort | networking/raw-proxy/src/vsock_to_ip_raw_outgoing.rs:105-117 | a connection panics exactly if its bytes are whole frames and then one with a length below 4 |
| RawProxy.PanicsIffSomeEndsShort | networking/raw-proxy/src/vsock_to_ip_raw_outgoing.rs:205-233 | over all connections, exactly if the bytes of one are so |
| RawProxy.ShortLengthPanics | networking/raw-proxy/src/vsock_to_ip_raw_outgoing.rs:111-117 | a header that claims three bytes does it |
| RawProxy.FailedSendPanics | networking/raw-proxy/src/vsock_to_ip_raw_outgoing.rs:182-185 | one ordinary packet and a socket that fails bring the process down |
| RawProxy.SendPackets | networking/raw-proxy/src/ip_to_vsock_raw_outgoing.rs:49-77 | ends with nothing waiting, or with an error of the queue exactly if a call on it failed, which leaves the stream between packets, or of the connection exactly if a write failed, which cuts at most the last packet |
| RawProxy.SendPacket | networking/raw-proxy/src/ip_to_vsock_raw_outgoing.rs:60-68 | partial sends put the packet on the stream whole, or a prefix of it with an error exactly if a write failed |
| RawProxy.SendAll | networking/raw-proxy/src/ip_to_vsock_raw_outgoing.rs:90-115 | every packet taken from the queue is sent on exactly one connection, in order, until none waits or all the errors there were have happened |
| RawProxy.Reframing | networking/raw-proxy/src/vsock_to_ip_raw_outgoing.rs:104-187 | from any prefix of a stream of packets the receiver recovers and sends exactly the whole ones that pass, whatever its buffer held |
| RawProxy.EndToEnd | networking/raw-proxy/src/vsock_to_ip_raw_outgoing.rs:104-233 | for any packets whose length fields are true and that are settled, any chunking and any reconnects: what is sent is what came whole on some connection, in order, filtered |
| Cgroups.Cgroups.Reserve | serverless/executor/src/cgroups.rs:21-27 | takes the first free cgroup, keeps the rest, fails exactly when there is none |
| Cgroups.SwapRemoveIs | serverless/executor/src/cgroups.rs:21-27 | what is left is in its old order but for the last, which comes first |
| Cgroups.Cgroups.Release | serverless/executor/src/cgroups.rs:30-32 | appends the cgroup |
| Cgroups.StepConserves | serverless/executor/src/job_handler.rs:149-190 | every step of a job, return or cancellation keeps free and held cgroups together |
| Cgroups.PoolIsConserved | serverless/executor/src/job_handler.rs:38-42 | over any run they are the initial multiset |
| Cgroups.NothingLeaks | serverless/executor/src/job_handler.rs:155-159 | when all jobs are over every cgroup is free again |
| Cgroups.JobsAreIsolated | serverless/executor/src/job_handler.rs:149-190 | no two jobs hold the same cgroup, no held one is free, no two live workers share a port |
| Cgroups.PortOfName | serverless/executor/src/workerd.rs:169-179 | the port of a script-given name, or none beyond 16 bits |
| Cgroups.PortsOfNamesDiffer | serverless/executor/src/workerd.rs:169-179 | script-given names with ports have the same port exactly when they are the same |
| Cgroups.PortsAreNumbers | serverless/executor/src/workerd.rs:169-179 | two names with ports, however spelled, share one exactly if what follows the prefix is the same number |
| Cgroups.SpellingsCollide | serverless/executor/src/workerd.rs:170 | other spellings of a number share its port |
| Cgroups.DecimalRoundTrip | serverless/executor/src/workerd.rs:170 | a number's decimal spelling parses back to it |
| Cgroups.Executor.ReserveFor | serverless/executor/src/job_handler.rs:149-159 | moves the first free cgroup to the job, or ends the job when there is none |
| Cgroups.Executor.SpawnFor | serverless/executor/src/job_handler.rs:161-179 | the job's worker gets the port of its cgroup's name; a name without a port ends the job and frees the cgroup |
| Cgroups.Executor.EndJob | serverless/executor/src/job_handler.rs:155-190 | however and whenever the job ends, its cgroup, if it has one, is appended to the free list |
| Cgroups.Executor.Interleave | serverless/executor/src/job_handler.rs:149-190 | any interleaving of jobs, returns and deadlines, in place, is the run of its events and conserves the pool |
| Calldata.HexRoundTrip | serverless/executor/src/workerd.rs:104 | decoding undoes encoding, for all bytes |
| Calldata.HexExactly | serverless/executor/src/workerd.rs:104 | hexadecimal text is an even number of digits, and each pair is its byte |
| Calldata.StripTrailingZeros | serverless/executor/src/workerd.rs:106-108 | the backward search and truncation leave the shortest prefix that only zeros follow, and everything if there are only zeros |
| Calldata.DecodeCode | serverless/executor/src/workerd.rs:93-108 | too short, another method, bad hex, or the stripped bytes, for every text |
| Calldata.RefusedExactly | serverless/executor/src/workerd.rs:93-104 | which texts are refused and why: under 138 characters, another method or offset, a digit missing or wrong after the length word |
| Calldata.PaddingStripped | serverless/executor/src/workerd.rs:106-108 | stripping undoes padding exactly if the code ends in another byte, or is all zeros and not padded |
| Calldata.StoredReadsAs | serverless/executor/src/workerd.rs:97-108 | what a stored code reads back as, whatever its length word says |
| Calldata.ReadBackIff | serverless/executor/src/workerd.rs:106-108 | a stored code is read back unchanged exactly if it does not end in a zero byte or is whole words of zeros |

## Left out

- Handshake: the two constructors are step functions over whole packets so that every interleaving can be quantified
  over; only CLIENTFIN and SERVERFIN are also modelled in place, in their buffers (`HandshakeBuffers`). The key
  exchange inside the first two messages is the library's.
- ScallopStream.Decrypt: a failed decryption leaves the record buffer as it was; the library may have
  overwritten it.
- IndexerLoop.Life: a restart with a start block later than the first, which skips logs by design; chains of 2^63 blocks
  or more; range sizes that overflow (`Indexer.NextRangeExactly` says exactly which).
- RawProxy.EndToEnd: sends do not fail (`RawProxy.Proxy` says what happens when they do); with sockets that cut
  datagrams short only the bytes agree (`RawProxy.Proxy`).
- RawProxy.Queue: what the kernel does with packets that were refused a verdict; the nfqueue and raw-socket
  incoming direction of the proxy.
- NonceQueue: gas prices and limits, a change of the gas account, several sender generations, transaction hashes;
  a receipt is "mined or not".
- Control plane: AWS, SSH and iptables calls, connection backoff, reorganised (removed) logs, logging; timers are exact,
  not rounded to milliseconds.
- Indexer: the provider table and its events (taken as events that change none of the modelled tables, so a JobOpened
  for an unknown provider is accepted), ABI decoding (an undecodable event is an error), Postgres itself.
- Calldata: the text is ASCII; fetching the transaction and checking its address.
- Executor: config files, worker output, HTTP and key handling.
- Attestation: the real verifier and signature; parsing of certificates.
- TCP and Go/TypeScript proxies, key generation, command lines and build files: plumbing without state of their own.
