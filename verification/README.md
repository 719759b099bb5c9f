# EV3 Event Broker: verified model

A Dafny model of the message broker for LEGO EV3 bricks: the UDP wire protocol, the server's
name-conflict protocol, the event loop that drives it, the simulated motor and the motor registry.
`dafny verify dfyconfig.toml` checks everything.

| file | contents |
|---|---|
| `Options.dfy` | values that may be absent |
| `Codec.dfy` | bytes, C strings, fixed-size string fields, big-endian integers; the loops over buffers |
| `Wire.dfy` | constants, messages, headers and packets as byte strings |
| `Marshaller.dfy` | the class `Marshaller` over its 1280-byte buffer, proved against an abstract state machine |
| `Batching.dfy` | what a run of writes and flushes puts on the wire, without the machine's state |
| `Layout.dfy` | the documented format in literal bytes and offsets |
| `Decoder.dfy` | the parser as a function of its shift register and one datagram; the register as a window |
| `Overread.dfy` | when the parser reads the byte behind the datagram |
| `Demarshaller.dfy` | the class `Demarshaller`: the parsing loop over its fields and name buffers |
| `Channel.dfy` | one packet through the parser: locking on, header, messages |
| `Transport.dfy` | end-to-end transparency, and exactly when it holds |
| `Faults.dfy` | datagrams that are cut, joined or rejected |
| `Server.dfy` | filter, conflict flag, heartbeat and sensor handlers, runs of the handlers |
| `NameConflict.dfy` | any number of servers of one name as a timed transition system |
| `EventLoop.dfy` | the scheduler loop as a class, over a scripted clock and environment |
| `LoopTiming.dfy` | starvation, and how early and how late timers fire over every run |
| `Deployment.dfy` | servers run by their event loops: every such run is a run of the conflict protocol |
| `WorstCase.dfy` | the latest loops there are, and the exact bound for mutual exclusion |
| `VirtualMotor.dfy` | the simulated motor over reals |
| `Motors.dfy` | the motor registry |

Conventions. A byte string stands for the bytes at a C pointer; as a C string it ends at its first
zero byte, or with a terminator behind its last byte. The marshaller's callback is a function from
the history of datagrams to true, false or an exception, so every deterministic callback is covered;
a call that throws leaves what it had not done undone, and the caller may go on (`Completed` are the
calls of a run that did not throw, `sent` the datagrams on which the callback did not). A listener's
filter is a function of the header, and the other callbacks are recorded as a sequence of events. A
datagram is parsed together with the byte that follows it in memory, because the code reads that
byte when exactly 28 bytes remain behind the sync word. The event loop's clock moves only by the
durations its script supplies; `poll` results and callback results, exceptions among them, come from
the script too. In the timing results F and C bound the socket and the timer callbacks of one
iteration, L = max(F, C - 1) is how late a pass can be (`Slack`), and D bounds the time from a
heartbeat's tick to its handler; what needs a punctual `poll` says so by `AllQuick`, the rest holds
however long `poll` sleeps.

Where the code and its documentation differ, the model follows the code:

* The repository's README says that only a node's own packets are discarded. In the code an early
  return leaves the parser locked, and the packet behind a discarded one is lost as well
  (`Faults.RejectionCost`, `Faults.StreamLaw`, `Serving.HeartbeatLostBehindOwn`);
  `Faults.OnlyRejectedDiscardedIff` says exactly when the documented behaviour is met.
* So a name conflict can go unnoticed. `Serving.ConflictExact` says exactly which heartbeats a node
  hears, and `Serving.BothBroadcast` is a run, without loss or delay, in which two servers of one name
  both broadcast.
* The message counter is one byte wide while 1247 messages fit into a packet: `Batching.SilentFlush`
  is a flush that sends nothing, and `Transport.TransparencyExact` says exactly when everything
  arrives.
* Device names take 16 bytes in position messages too (the README's table says 8), and positions are
  signed.
* `HEADER_SIZE` is 28, but 29 bytes are read, so `parse` can read past its buffer. It does so on any
  datagram in which exactly 28 bytes follow the sync word it locks on, and in general only if the last
  28 bytes stand behind a sync word (`Overread.OverreadIff`, `Overread.OverreadNeedsHeaderAtEnd`,
  `Faults.OverreadInStream`); `Demarshaller.Parse` asks its caller to check that where the buffer ends
  with the datagram.

## Model

| member | source | states |
|---|---|---|
| Codec.WriteFixedSizeString | ev3_event_broker/marshaller.cpp:30-40 | writes the string cut to the field and zero-padded, and no other byte |
| Codec.ReadFixedSizeString | ev3_event_broker/marshaller.cpp:51-58 | copies the field and leaves the rest of the target, its terminator, alone |
| Codec.FixedStringReadBack | ev3_event_broker/marshaller.cpp:30-58 | a written field reads back as the C string cut to the field |
| Codec.WriteInt | ev3_event_broker/marshaller.cpp:42-49 | writes the big-endian digits of the value, and no other byte |
| Codec.ReadInt | ev3_event_broker/marshaller.cpp:60-69 | shift-and-or over the bytes gives their big-endian value |
| Codec.DecodeEncode | ev3_event_broker/marshaller.cpp:42-69 | decoding undoes encoding modulo the width, at every width |
| Codec.EncodeDecode | ev3_event_broker/marshaller.cpp:42-69 | every byte string is the encoding of its value |
| Codec.BigEndianDigit | ev3_event_broker/marshaller.cpp:45-47 | the recursive encoding and the source's shift-and-mask digit agree |
| Codec.OrDisjoint | ev3_event_broker/marshaller.cpp:63-66 | or-ing disjoint bit ranges is addition |
| Marshalling.Marshaller.constructor | ev3_event_broker/marshaller.cpp:75-90 | an empty good marshaller whose buffer starts with sync word, name and hash |
| Marshalling.Marshaller.FlushIfNoSpace | ev3_event_broker/marshaller.cpp:92-96 | flushes exactly when the message does not fit into 1280 bytes; passes an exception on |
| Marshalling.Marshaller.Stamp | ev3_event_broker/marshaller.cpp:100-102 | patching the two header fields in place makes the buffer the packet of the pending messages |
| Marshalling.Marshaller.Flush | ev3_event_broker/marshaller.cpp:98-110 | refines the abstract flush: one packet to the callback unless failed or the counter is zero; if the callback throws, count, pointer and sequence number stay |
| Marshalling.Marshaller.InitializeMsg | ev3_event_broker/marshaller.cpp:112-115 | room for the message behind the buffer pointer, flushing first if needed, unless that throws |
| Marshalling.Marshaller.FinalizeMsg | ev3_event_broker/marshaller.cpp:117-121 | the bytes written behind the pointer become one more pending message; the counter wraps at 256 |
| Marshalling.Marshaller.WritePositionSensor | ev3_event_broker/marshaller.cpp:123-130 | refines the abstract write (its bytes: `Layout.MessageLayout`), which throws exactly when its flush does and then writes nothing; bytes 0 to 27 and the body invariant are kept |
| Marshalling.Marshaller.WriteSetDutyCycle | ev3_event_broker/marshaller.cpp:132-139 | refines the abstract write (its bytes: `Layout.MessageLayout`) |
| Marshalling.Marshaller.WriteReset | ev3_event_broker/marshaller.cpp:141-145 | refines the abstract write |
| Marshalling.Marshaller.WriteHeartbeat | ev3_event_broker/marshaller.cpp:147-151 | refines the abstract write |
| Batching.BatchesFit | ev3_event_broker/marshaller.cpp:92-96 | after any calls every batch, closed or open, fits the buffer |
| Batching.RunIsBatched | ev3_event_broker/marshaller.cpp:92-121 | after any calls and for any callback: the open batch of the completed calls is pending, batch k was stamped k mod 2^32 (empty and implicit flushes count) and sent unless its length is a multiple of 256 or an earlier datagram was refused |
| Batching.NothingThrown | ev3_event_broker/marshaller.cpp:98-151 | with a callback that never throws every call is completed |
| Batching.NothingLost | ev3_event_broker/marshaller.cpp:92-151 | the batches of any calls, in order, are exactly the messages they write; with `Completed`, an exception loses nothing written before it |
| Batching.GoodIffNoneRefused | ev3_event_broker/marshaller.cpp:99-104 | the callback refused no datagram but possibly the last; good means not that one either; what was sent is what was handed over without an exception |
| Batching.NothingAfterFailure | ev3_event_broker/marshaller.cpp:99-104 | after a refusal no call sequence hands anything over |
| Batching.SilentFlush | ev3_event_broker/marshaller.cpp:98-121 | 256 heartbeats and a flush send nothing: the concrete failure of delivery |
| Layout.HeaderLayout | README.md:184-196 | bytes 0 to 32 of every datagram: CA A2 9C 3A, name and hash zero-padded in 16 and 8 bytes, sequence number, count |
| Layout.MessageLayout | ev3_event_broker/marshaller.hpp:30-48 | every message of a datagram at its offset: 01 or 02 with 16 bytes of name and the four big-endian digits of the value modulo 2^32, 03, FF |
| Layout.PutOff | ev3_event_broker/marshaller.cpp:92-130 | a message goes to the next datagram only if this one would grow beyond 1280 bytes |
| Layout.DatagramLimit | README.md:188-188 | no calls make a datagram longer than 1280 bytes |
| Decoder.RegisterIsWindow | ev3_event_broker/marshaller.cpp:167-172 | the shift register always holds the last four bytes seen |
| Decoder.NeverLocksIffAbsent | ev3_event_broker/marshaller.cpp:167-172 | a cleared register stays unlocked over data exactly when the sync word does not occur in it |
| Decoder.NextByteIrrelevant | ev3_event_broker/marshaller.cpp:174-183 | the byte behind the datagram matters only if a header was read with 28 bytes left |
| Overread.OverreadNeedsHeaderAtEnd | ev3_event_broker/marshaller.cpp:163-183 | on any input, for any filter: the byte behind the datagram is read only if its last 28 bytes stand behind a sync word |
| Overread.LockedOverread | ev3_event_broker/marshaller.cpp:174-183 | a locked parser reads past the datagram if and only if 28 bytes are left, unless another sync word stands 32 bytes before the end |
| Overread.OverreadIff | ev3_event_broker/marshaller.cpp:163-183 | the failing inputs: exactly 28 bytes behind the first sync word, whatever they are; without a sync word none |
| Demarshalling.ShiftIsOr | ev3_event_broker/marshaller.cpp:170 | the register step with shift and or is the arithmetic one |
| Demarshalling.Demarshaller.constructor | ev3_event_broker/marshaller.cpp:157-161 | a cleared register and terminated name buffers |
| Demarshalling.Demarshaller.ParseHeader | ev3_event_broker/marshaller.cpp:178-183 | reads the header fields; name buffers stay terminated |
| Demarshalling.Demarshaller.ParseMessage | ev3_event_broker/marshaller.cpp:194-231 | reads one message, or fails exactly when its type is unknown or it is cut off (which types there are: `Layout.MessageLayout`, `Faults.UnknownType`) |
| Demarshalling.Demarshaller.ParseMessages | ev3_event_broker/marshaller.cpp:189-232 | the message loop refines the recursive reader, failures included |
| Demarshalling.Demarshaller.ParsePacket | ev3_event_broker/marshaller.cpp:174-232 | header, filter and messages behind a sync word |
| Demarshalling.Demarshaller.Parse | ev3_event_broker/marshaller.cpp:163-237 | terminates, reads within bounds if the buffer goes on or the datagram does not end in 28 bytes behind a sync word, keeps every name buffer terminated, makes exactly the specified listener calls and leaves the specified register |
| Channel.SyncLocks | ev3_event_broker/marshaller.cpp:167-172 | from any other register value the parser locks at the fourth byte of the sync word, not before |
| Channel.SelfSynchronisation | ev3_event_broker/marshaller.cpp:163-172 | behind any junk that does not lock, a packet is locked exactly at its fourth byte, within one call or across calls |
| Channel.MessageReadBack | ev3_event_broker/marshaller.cpp:123-231 | every message reads back, its device name cut to 16 bytes, its value intact |
| Channel.BodyReadBack | ev3_event_broker/marshaller.cpp:189-232 | a list of messages reads back, whatever follows it |
| Channel.HeaderReadBack | ev3_event_broker/marshaller.cpp:75-183 | a packet's header reads back with the cut name and hash |
| Channel.PacketHead | ev3_event_broker/marshaller.cpp:163-237 | an unlocked parser takes a packet for what it is, and what it does with the rest |
| Transport.PacketDelivered | ev3_event_broker/marshaller.cpp:163-237 | a packet of at most 255 messages is delivered in full, or rejected and the parser left locked |
| Transport.WrappedPacket | ev3_event_broker/marshaller.cpp:189-236 | with more messages the first n mod 256 arrive and the parser hunts in the others |
| Transport.CountWrap | ev3_event_broker/marshaller.cpp:98-121 | a flush of n messages sends nothing if 256 divides n or the callback throws; otherwise exactly the first n mod 256 arrive if the rest holds no sync word |
| Transport.BatchesArrive | ev3_event_broker/marshaller.cpp:98-237 | the packets of batches of at most 255 messages arrive complete and in order |
| Transport.Transparency | ev3_event_broker/marshaller.cpp:30-237 | for every run of calls that leaves nothing pending, and any callback that refused nothing, parsing the sent datagrams delivers the messages of all calls that did not throw, in order, also when they contain the sync word |
| Transport.TransparencyExact | ev3_event_broker/marshaller.cpp:30-237 | everything written by calls that did not throw arrives if and only if no batch has more than 255 messages |
| Transport.DecodeBytesBound | ev3_event_broker/marshaller.cpp:163-237 | on any input the delivered messages cost their size in bytes, and at least 29 bytes more |
| Transport.PacketDeliveredBytes | ev3_event_broker/marshaller.cpp:163-237 | in no parser state a packet delivers more bytes than were written, and fewer if its counter wrapped |
| Transport.LockedPacket | ev3_event_broker/marshaller.cpp:167-186 | a packet that meets a locked parser shows a shifted header without messages and is hunted through from offset 29 |
| Transport.SpuriousHeartbeat | ev3_event_broker/marshaller.cpp:167-221 | with sequence number 0x01030000 a locked parser delivers a heartbeat nobody wrote: the limit of the exact law |
| Faults.WholeIsLargest | ev3_event_broker/marshaller.cpp:189-232 | the number of messages wholly inside a prefix, by their encoded size |
| Faults.CutBody | ev3_event_broker/marshaller.cpp:189-232 | a cut body yields exactly the whole messages and then fails |
| Faults.Truncation | ev3_event_broker/marshaller.cpp:163-237 | any prefix of a packet delivers exactly the messages wholly inside, whatever byte follows; which register it leaves; it is read past its end exactly at 32 bytes |
| Faults.UnknownType | ev3_event_broker/marshaller.cpp:189-231 | behind a type byte other than 01, 02, 03 and FF nothing is delivered any more, the messages in front of it are, and the parser stays locked |
| Faults.Concatenation | ev3_event_broker/marshaller.cpp:163-237 | one buffer of k packets has the outcome of k calls |
| Faults.OverreadInStream | ev3_event_broker/marshaller.cpp:163-183 | behind any accepted packets and junk the datagram is read past its end if and only if 28 bytes follow the next sync word |
| Faults.OrdinaryLost | ev3_event_broker/marshaller.cpp:167-186 | an ordinary packet that meets a locked parser is lost and unlocks it |
| Faults.RejectionCost | ev3_event_broker/marshaller.cpp:167-236 | the packet behind a rejected one is lost, the one after it arrives in full |
| Faults.StreamLaw | ev3_event_broker/marshaller.cpp:163-237 | what exactly the parser delivers of any stream of accepted and rejected packets, if those that meet it unlocked count correctly and those that meet it locked are ordinary |
| Faults.PromiseKeptIff | README.md:185-185 | what survives is what the documentation promises, as lists of packets, if and only if no accepted packet with messages comes behind a rejected one that locked the parser |
| Faults.OnlyRejectedDiscardedIff | README.md:185-185 | the parser delivers all packets but the rejected ones if and only if no accepted packet with messages meets it locked |
| Serving.FilterExact | main_server.cpp:48-52 | through the wire a packet is rejected, or flags a conflict, exactly by its cut name and hash |
| Serving.OwnPackets | main_server.cpp:48-84 | a node rejects its own packets if and only if its name and hash fit their fields; a longer name never flags a conflict with itself |
| Serving.HeartbeatLostBehindOwn | ev3_event_broker/marshaller.cpp:184-186 | a rival's heartbeat right behind an own packet is lost, and the conflict with it |
| Serving.ConflictExact | main_server.cpp:48-84 | over a whole stream: the conflict flag is raised if and only if a packet with the own cut name, another hash and a heartbeat meets an unlocked parser |
| Serving.InTurnUnheard | ev3_event_broker/marshaller.cpp:163-237 | heartbeats that come in turn with the own ones are never heard, up to 2^24 of them |
| Serving.Server.constructor | main_server.cpp:121-166 | the initial control state and marshaller |
| Serving.Server.OnHeartbeat | main_server.cpp:81-84 | the conflict flag is raised by a header with the own name, and never lowered |
| Serving.Server.WritePositions | main_server.cpp:147-150 | the loop over the motors: refines the specified pass, and ends at its first exception |
| Serving.Server.HandleSensorTimer | main_server.cpp:142-157 | writes the positions up to the first exception, from a motor or from sending, flushes if there was none (`SensorPassSends`), reports the marshaller's state and whether the motors are rescanned |
| Serving.Server.HandleHeartbeatTimer | main_server.cpp:167-181 | exits, or starts to broadcast, or goes on, and then writes a heartbeat and flushes; an exception from sending ends the server |
| Serving.PositionPassMeaning | main_server.cpp:146-155 | which name and value each call of a sensor pass writes, in which order, and where and why the pass stops |
| Serving.SensorPassFlushes | main_server.cpp:146-152 | a sensor pass that no exception ends leaves nothing pending |
| Serving.SensorPassSends | main_server.cpp:142-157 | a pass over up to 59 motors hands over one datagram with the positions of all, in order; if sending throws, they stay pending |
| Serving.SensorPassArrives | main_server.cpp:142-157 | behind a pass that no exception ended, everything the server ever wrote without an exception has arrived |
| Serving.UndisturbedLife | main_server.cpp:167-177 | without a foreign heartbeat a server never gives up and, as long as it runs, broadcasts exactly from its fifth heartbeat on |
| Serving.EnabledForGood | main_server.cpp:169-177 | a broadcasting server never gives up its name, whatever it hears |
| Serving.RunsOn | main_server.cpp:142-181 | with a callback that always succeeds a server that does not give up runs on |
| Serving.FinishedIfRefused | main_server.cpp:156-156 | a server returns from its loop only behind a refused datagram, and then at its next sensor pass |
| Serving.ConflictedExits | main_server.cpp:142-177 | a server that hears of a conflict before it broadcasts writes nothing more and is gone after its next heartbeat |
| Serving.HeartbeatsSent | main_server.cpp:167-181 | an undisturbed server sends one heartbeat packet a tick, numbered from 0 |
| Serving.BothBroadcast | main_server.cpp:81-181 | two servers that tick in turn, the second listening from behind the first heartbeat on, never hear each other: what is on the wire is what they sent, and both broadcast from their fifth heartbeat on, for good |
| Serving.ServedShape | main_server.cpp:142-181 | in any run, whatever the callback does: between handlers at most 59 positions and no heartbeat are pending, unless an exception ended the server at a heartbeat; inside handlers one heartbeat more |
| Serving.PositionFits | ev3_event_broker/marshaller.cpp:92-96 | 59 positions and a heartbeat fit into one packet, 60 positions do not |
| Serving.ClosedWerePending | main_server.cpp:142-181 | the closed batches of a run are no longer than what was ever pending |
| Serving.NoWrap | main_server.cpp:142-181 | in every run, inside and between handlers, also behind passes that an exception from a motor or from sending cut short and behind a heartbeat that could not be sent, at most 60 messages are pending: the counter never wraps |
| Serving.DeployedTransparency | main_server.cpp:126-181 | everything the server flushes without an exception arrives in full |
| NameConflict.StepKeepsInv | main_server.cpp:81-181 | every step of the server system keeps the invariant: a later server is warned in time |
| NameConflict.LosersLeave | main_server.cpp:167-180 | a tick removes exactly a warned server that does not broadcast yet; any other sends a heartbeat to all |
| NameConflict.OldestOnly | main_server.cpp:142-181 | of the live servers of one name only the one started first can broadcast positions |
| NameConflict.MutualExclusion | main_server.cpp:142-181 | no reachable state has two broadcasting servers if period plus delay is below 1250 ms |
| NameConflict.ExclusiveIff | main_server.cpp:167-181 | mutual exclusion holds if and only if period plus delay is below 1250 ms (or the period is below the timer interval and nobody ticks) |
| EventLoops.EventLoop.RegisterTimer | ev3_event_broker/event_loop.cpp:78-81 | the first deadline is one interval after the registration |
| EventLoops.EventLoop.RegisterEvent | ev3_event_broker/event_loop.cpp:72-76 | one more socket, nothing pending on it |
| EventLoops.EventLoop.ComputeTimeout | ev3_event_broker/event_loop.cpp:61-69 | the least remaining time, at most INT_MAX, narrowed to an int |
| EventLoops.EventLoop.CallSockets | ev3_event_broker/event_loop.cpp:94-102 | refines the socket pass: clock, flags left, how it ends, and when each callback is entered |
| EventLoops.SocketPassFacts | ev3_event_broker/event_loop.cpp:94-102 | exactly the flagged sockets up to the first that fails or throws are called, during the pass, exactly their flags are cleared, and the loop ends as that one says |
| EventLoops.EventLoop.CallTimers | ev3_event_broker/event_loop.cpp:113-121 | serves the due timers of one pass time, up to the first whose callback fails or throws |
| EventLoops.EventLoop.RunOnce | ev3_event_broker/event_loop.cpp:85-122 | one iteration: poll or not, sockets, timers, return and throw, from poll or from a callback |
| EventLoops.EventLoop.Run | ev3_event_broker/event_loop.cpp:83-123 | the loop's trace over any script |
| EventLoops.TimerPassFacts | ev3_event_broker/event_loop.cpp:113-121 | only due timers fire; a full pass serves all due timers and leaves the others alone |
| EventLoops.IterationTimes | ev3_event_broker/event_loop.cpp:85-121 | callbacks are entered back to back, and the clock moves by the sleep in poll and the callbacks entered only |
| EventLoops.PollsUnlessDue | ev3_event_broker/event_loop.cpp:85-90 | poll is called exactly if no timer is due |
| EventLoops.TimeoutIsLeast | ev3_event_broker/event_loop.cpp:61-69 | the timeout is the least remaining time, at most 2147483647 |
| EventLoops.NarrowIs | ev3_event_broker/event_loop.cpp:68-87 | the conversion to int keeps what fits and is a congruence modulo 2^32 |
| EventLoops.PollOutcome | ev3_event_broker/event_loop.cpp:87-122 | an interrupted poll ends nothing and serves no timer, a failed one ends the run with an exception; otherwise flagged sockets, then timers, and how the iteration ends is what the last callback says |
| EventLoops.BenignRunsOn | ev3_event_broker/event_loop.cpp:83-123 | a run ends only by a failed poll or by a callback |
| LoopTiming.NoStarvation | ev3_event_broker/event_loop.cpp:61-121 | at most n consecutive iterations skip poll, the last one ending the loop or not, for n timers whose callbacks together take less than the smallest interval; each of them fires a timer, and none fires twice |
| LoopTiming.PassLooksAhead | ev3_event_broker/event_loop.cpp:113-121 | behind a pass at t every deadline lies in (t, t + interval], however long poll slept |
| LoopTiming.NeverEarly | ev3_event_broker/event_loop.cpp:61-121 | in every run, whatever poll and the callbacks do, no timer fires before its deadline |
| LoopTiming.PassInTime | ev3_event_broker/event_loop.cpp:61-121 | with a punctual poll each pass comes at most L behind any deadline, and the iteration ends at most C later |
| LoopTiming.NeverLate | ev3_event_broker/event_loop.cpp:61-121 | with a punctual poll each firing of a run comes at most L behind its deadline and is entered at most C later; the clock never gets past a pending deadline by more, at the end of the run either |
| LoopTiming.PeriodBounds | ev3_event_broker/event_loop.cpp:61-121 | consecutive passes of a timer are at least an interval apart in every run, and at most L more with a punctual poll |
| Deployment.TicksNotEarly | main_server.cpp:195-200 | heartbeat n (from 0) never comes before 250 * (n + 1) ms from the start, in any run |
| Deployment.TicksNotLate | main_server.cpp:195-200 | at every moment up to the next heartbeat, and up to the end of the run behind the last, a server is within 250 ms plus L + C of its last heartbeat |
| Deployment.DrivenStep | main_server.cpp:167-200 | a step of servers whose heartbeats come exactly when their own loops' traces say is a step the conflict protocol allows, and keeps the servers in step with their loops |
| Deployment.DrivenAllowed | main_server.cpp:167-200 | every run of servers driven by event loops is a run of the conflict protocol |
| Deployment.DeployedExclusion | main_server.cpp:167-200 | in no run driven by event loops two servers of one name broadcast together, if L + C + D is below a second |
| Deployment.ServerRuns | main_server.cpp:167-200 | the server's three timers do drive it: through any number of heartbeats, broadcasting from the fifth on |
| WorstCases.LateTick | ev3_event_broker/event_loop.cpp:61-121 | for any F and C up to a second a loop whose heartbeat is entered the full L + C late |
| WorstCases.Together | main_server.cpp:167-200 | from L + C + D of a second on, a run driven by event loops in which two servers broadcast together |
| WorstCases.DeployedExclusionIff | main_server.cpp:167-200 | servers run by event loops exclude each other if and only if L + C + D is below a second |
| VirtualMotors.VirtualMotor.constructor | ev3_event_broker/virtual_motor.cpp:40-48 | the motor at rest |
| VirtualMotors.VirtualMotor.SetDutyCycle | ev3_event_broker/virtual_motor.cpp:76-87 | re-anchors at the current position and velocity and sets the clamped target speed (its sign and size: `Approaches`) |
| VirtualMotors.VirtualMotor.Reset | ev3_event_broker/virtual_motor.cpp:65-69 | stops the motor, then takes the offset at a second clock reading |
| VirtualMotors.VirtualMotor.GetPosition | ev3_event_broker/virtual_motor.cpp:71-74 | the integer on the side of zero less than one away from the degrees since the offset |
| VirtualMotors.TruncateIs | ev3_event_broker/virtual_motor.cpp:73-73 | the conversion yields that integer and no other |
| VirtualMotors.Continuous | ev3_event_broker/virtual_motor.cpp:52-87 | position, velocity and reading are continuous at every command |
| VirtualMotors.Approaches | ev3_event_broker/virtual_motor.cpp:44-87 | the velocity decays toward a 25th of the duty cycle in rev/s, at most 4 either way, with a time constant of 0.1 s; the position is its integral |
| VirtualMotors.DegreesFromRest | ev3_event_broker/virtual_motor.cpp:52-87 | what a motor started from rest reads, in literal degrees |
| VirtualMotors.RepeatsInvisible | ev3_event_broker/virtual_motor.cpp:52-87 | repeating the duty cycle any number of times leaves the whole trajectory unchanged |
| VirtualMotors.WayCovered | ev3_event_broker/virtual_motor.cpp:52-63 | within one anchoring the way is a weighted sum of start and target velocity |
| VirtualMotors.SpeedLimit | ev3_event_broker/virtual_motor.cpp:52-87 | over every run of commands and resets at most 4 rev/s, and at most 4 revolutions of way to a second |
| VirtualMotors.ResetStops | ev3_event_broker/virtual_motor.cpp:65-74 | a reset moves nothing, lets the velocity decay to zero, and counts degrees from the offset on |
| VirtualMotors.ResetReadsZero | ev3_event_broker/virtual_motor.cpp:65-74 | a reset motor reads zero at the offset and coasts at most 144 degrees |
| MotorRegistry.Motors.constructor | ev3_event_broker/motors.cpp:34 | a rescan of the empty registry |
| MotorRegistry.Motors.Find | ev3_event_broker/motors.cpp:36-44 | the first motor of that name, or none exactly when no motor has it |
| MotorRegistry.Motors.Erase | ev3_event_broker/motors.cpp:57-63 | exactly the good motors stay, in place |
| MotorRegistry.Motors.Rescan | ev3_event_broker/motors.cpp:46-94 | survivors, then the winning entries in directory order |
| MotorRegistry.TakenIff | ev3_event_broker/motors.cpp:84-87 | a name is taken in mid-scan exactly by a survivor or an earlier openable, resettable entry |
| MotorRegistry.SurvivorsAreGood | ev3_event_broker/motors.cpp:57-63 | the survivors are exactly the good motors |
| MotorRegistry.SurvivorsKeepOrder | ev3_event_broker/motors.cpp:57-63 | the survivors keep their order |
| MotorRegistry.WinnersKeepOrder | ev3_event_broker/motors.cpp:70-92 | new motors come in directory order |
| MotorRegistry.RescanOrder | ev3_event_broker/motors.cpp:46-94 | a rescan in full: the good motors in their order, then, in directory order and nothing else, the entries that are the first of their name to open and to be reset and whose name no good motor has |
| MotorRegistry.NamesDistinct | ev3_event_broker/motors.cpp:46-94 | after any run of rescans names are pairwise distinct |
| MotorRegistry.RescanCovers | ev3_event_broker/motors.cpp:70-92 | after a rescan every openable, resettable name is registered |
| MotorRegistry.RescanIdempotent | ev3_event_broker/motors.cpp:46-94 | a second scan of the same device files, opened again, with all motors good changes nothing: the old motors stay |

## Left out

- TransparencyExact: the "only if" half covers the first 2^24 flushes; from there on a parser left locked by a wrapped packet can take sequence bytes for messages and deliver ones nobody wrote (`SpuriousHeartbeat`), so counting delivered bytes no longer shows the loss. `Transparency`, the "if" half, has no such bound.
- Parse: the listener's filter is a function of the header; a filter that changes its mind during a call is not modelled, and neither are callbacks that throw. The values left in the current-message fields are not stated.
- MutualExclusion: heartbeats go from handler to handler within the delay bound; loss on the network or in the parser (`HeartbeatLostBehindOwn`, `BothBroadcast`) breaks that bound and is a separate matter. A server that stops is taken to be silent at once.
- DeployedExclusion: a heartbeat's way from its tick to the receiver's handler is bounded as a whole; the receiver's part of it is not derived from its loop. A loop's script is fixed beforehand and does not depend on what the server hears.
- DeployedExclusionIff: ranges over loops with any timers beside the heartbeat timer; for the server's own three timers the bound is sufficient.
- OverreadIff: where another sync word stands exactly 32 bytes before the end, the filter and the messages in front of it decide whether the parser still hunts there; `OverreadNeedsHeaderAtEnd` covers that case one way.
- Serve: a receive that fails or finds the socket closed ends the run of a server; the runs that end so are not told from those that just stop.
- HandleHeartbeatTimer: the heartbeat counter is unbounded; the source's `int` would overflow after 17 years.
- Run: the endless loop is covered by all finite scripts; clock readings inside one iteration differ only by the scripted durations.
- SpeedLimit: reals instead of doubles; the exponential is a parameter with the laws e(0) = 1, additivity, and for s >= 0: 0 < e(-s) <= 1 and 1 - e(-s) <= s.
- GetPosition: the cut to `int` is unbounded.
- Rescan: a motor is its name and an identity; device files, `readdir` and path building are inputs.
- Sockets, `poll`, file descriptors, sysfs access and argument parsing: I/O plumbing.
- The random hash generator: hashes are given byte strings.
- Dispatch of duty cycle and reset messages to the motors: one call each, with its error handler.
- The client program and the Python bindings: JSON, text streams and threads around the same marshaller.
