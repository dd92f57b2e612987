# A verified model of jalv's threads

jalv hosts one LV2 plugin. Its audio thread, its UI thread and the plugin's worker thread share byte
rings, event buffers, semaphores and a table of interned symbols, and nothing else. This project
models those pieces in Dafny, with the branches, error codes and machine arithmetic of the C code,
and proves what the program relies on them for.

`dafny verify dfyconfig.toml` checks everything.

## Shape

What the source changes in place is a class or a method over arrays, specified by a function of its
old state: `Evbuf.EventBuffer`, `Processing.Process`, `UiUpdates.Ui`, `Workers.Worker`,
`Symaps.Symap`, `Transports.Transport`, `Rings.Ring`. Where two threads share a ring, the method that
reads it calls `WriterRuns` before every read, so that the other thread may commit anything at that
point, and the method that writes it calls `ReaderRuns`.

What happens between threads is a state machine: `Next` takes one atomic step, or does nothing if the
step is not possible then, and the theorems are about `Exec` of every list of steps, so about every
interleaving.

| file | contents |
|---|---|
| `Bytes.dfy`, `Ring.dfy` | machine words; the ring by its contract |
| `Evbuf.dfy` | the event buffer, byte by byte (`src/lv2_evbuf.c`) |
| `Comm.dfy` | messages, their encoders and the reads of a message (`src/comm.c`) |
| `Process.dfy` | decoding on the audio thread, run and bypass (`src/process.c`) |
| `Update.dfy` | decoding on the UI thread, and the size of its receive buffer (`src/jalv.c`) |
| `Jack.dfy` | event ports before and after the plugin runs (`src/jack.c`) |
| `Delivery.dfy` | a ring between two threads: every interleaving of writes and partial reads |
| `Forwarding.dfy` | from the plugin's output buffers to the UI, end to end |
| `Pause.dfy` | the handshake of `jalv_apply_state` with the audio thread (`src/state.c`) |
| `PauseBytes.dfy` | the queue of messages of that handshake, and the bytes in its ring |
| `Worker.dfy`, `WorkerThread.dfy` | the worker's operations, and its protocol (`src/worker.c`) |
| `Symap.dfy` | the string interner (`src/symap.c`) |
| `Cycle.dfy` | update period (`src/process.c`) and transport prediction (`src/jack.c`) |

## Where the code does not do what one might expect

Each of these is stated exactly, as an if-and-only-if that is proved in both directions unless it says
otherwise.

- The guard of `lv2_evbuf_write` tests the size of an event before padding and adds the size after it.
  It is exact in every run exactly if the capacity is at least 16 and either a multiple of 8 or below
  32; otherwise one write makes the next subtraction wrap (`Evbuf.GuardExactness`).
- `src/lv2_evbuf.h:108-113` says that a write overwrites the event at the iterator. The code always adds
  to the size, so this is true exactly at the end (`Evbuf.OverwritesOnlyAtEnd`).
- A cycle writes its events to an input from the beginning. If they fit together with what is in the
  buffer, the buffer represents them afterwards exactly if it was empty (`Jack.IntendedExactlyIfEmpty`);
  a bypassed cycle that applies an event of the UI does not leave it so (`Jack.BypassSpoils`). If they do
  not all fit, an overlaid buffer can by chance represent the intended events, and nothing is claimed.
- A tempo is stored as a float and then compared as a double. So a tempo that JACK repeats, as expected
  otherwise, is taken for a change exactly if it is not a float (`Transports.RepeatedTempoSilentExactlyIf`);
  at 120.1 beats per minute a transport that stands still is reported in every cycle
  (`Transports.UnevenTempoNeverSilent`).
- For a plugin whose restore is not thread-safe, a restore excludes cycles that run the plugin exactly if the
  process is running when it begins, so that it is paused, or has never been activated
  (`PauseProtocol.ExclusiveExactlyIf`). Otherwise a message to resume is still on its way, in the ring or
  already in the hands of the audio thread; `PauseProtocol.OverlapReached` and
  `PauseProtocol.OverlapReachedWithEmptyRing` are runs from the start that fail. Even for a restore that
  excludes cycles, the cycle that took the message to pause goes on to run the plugin
  (`PauseProtocol.PauseWindow`).
- A state application keeps the order of control values exactly if it finds the process running or no
  control value still to be applied (`PauseProtocol.OrderKeptExactlyIf`); `PauseProtocol.OrderViolationReached`
  is a run that fails. The audio thread stores the tempo in the controls for it, for which there is no order.
- The write of the message to pause is not checked: the wait can return exactly if the message fitted
  (`PauseProtocol.WaitReturnsExactlyIf`); `PauseProtocol.EndlessWaitReached` is a run, of control values and one
  small event, that waits forever.
- The ring to the UI has two writers during a restore, since `src/state.c:165-168` echoes each value to it
  from the UI thread. A ring is made for one writer, so the theorems on delivery do not cover a cycle that
  writes at that time. If the plugin was paused, that can only be the cycle that took the message to
  pause; otherwise it can be any cycle. Both do happen (`PauseProtocol.EchoMeetsOnlyPausingCycle`,
  `PauseProtocol.EchoMeetsPausingCycle`, `PauseProtocol.EchoMeetsAnyCycle`).
- `jalv_worker_schedule` answers success without doing anything in a worker that must exit: success means
  that the request was queued or executed exactly in the other states (`Workers.Worker.Schedule`).

## Model

| member | source | states |
|---|---|---|
| Evbuf.PadSize | src/lv2_evbuf.c:186 | padding to 8 bytes in 32-bit arithmetic is exact rounding up, but for the last seven words, which wrap to 0 |
| Evbuf.SafeGuard | src/lv2_evbuf.c:172-187 | for a safe capacity and a size that a run can reach, the unsigned guard refuses exactly the events whose padded size does not fit; the size grows by exactly that, stays aligned, and stays 8 below the capacity |
| Evbuf.SafeRun | src/lv2_evbuf.c:161-191 | after a reset as input, every series of writes of any sizes keeps the size a multiple of 8 between 8 and capacity - 8 |
| Evbuf.GuardExactness | src/lv2_evbuf.c:172-187 | the guard is exact, without wrap-around, in all runs if and only if the capacity is at least 16 and either a multiple of 8 or below 32 |
| Evbuf.InRange | src/lv2_evbuf.c:71-112 | in a well-formed buffer the offset of the k-th event is valid exactly if there is a k-th event, the offset past the last is the end, and no offset wraps |
| Evbuf.Visit | src/lv2_evbuf.c:108-159 | at the k-th offset of a well-formed buffer, is_valid, get and next say exactly whether there is a k-th event, what it is with its time cut to 32 bits, and where the next is; reading stays in bounds |
| Evbuf.VisitExact | src/lv2_evbuf.c:93-159 | in an input buffer every round of the iteration reads the event unchanged, and the iteration stops at the offset that get_size returns |
| Evbuf.EventsUnique | src/lv2_evbuf.c:114-159 | bytes of a given size are the image of at most one series of events |
| Evbuf.StoredEvent | src/lv2_evbuf.c:177-184 | the four stores of a write amount to one contiguous event image |
| Evbuf.EventFormat | src/lv2_evbuf.c:177-184 | what an event looks like in memory, byte by byte |
| Evbuf.EventsAtIndex | src/lv2_evbuf.c:114-130 | the k-th of the events laid out one after the other is found at the sum of the padded sizes before it |
| Evbuf.OverwriteKeepsEvents | src/lv2_evbuf.c:177-184 | stores past the events leave all of them readable |
| Evbuf.AppendedImage | src/lv2_evbuf.c:177-190 | an accepted write at the end leaves every earlier event readable and adds the new one |
| Evbuf.WriteInside | src/lv2_evbuf.c:172-188 | a write at an offset inside of a sound buffer stays in its memory, keeps it sound, and leaves the iterator inside |
| Evbuf.WriteAppends | src/lv2_evbuf.c:161-191 | a write at the end stays in bounds and appends the event, or refuses it and changes nothing, exactly by whether its padded size fits |
| Evbuf.WriteRun | src/lv2_evbuf.c:59-69 | a reset as input and any writes at the end leave a well-formed buffer of exactly the events that fitted |
| Evbuf.RoundTrip | src/lv2_evbuf.c:59-191 | after a reset as input and any series of writes at the end, begin, next and get visit exactly the accepted events, in order and unchanged, and end at get_size |
| Evbuf.AppendAllOrdered | src/lv2_evbuf.c:161-191 | whichever events are refused, those accepted from a series ordered in time are ordered in time |
| Evbuf.OverwritesOnlyAtEnd | src/lv2_evbuf.c:177-190 | an accepted write replaces the event at the iterator if and only if the iterator was at the end |
| Evbuf.EventBuffer.constructor | src/lv2_evbuf.c:23-49 | a new buffer has room for its capacity and one more sequence header, and no type or size |
| Evbuf.EventBuffer.Reset | src/lv2_evbuf.c:59-69 | as input: a well-formed sequence of no events; as output: a chunk of the whole capacity, whose iteration is empty |
| Evbuf.EventBuffer.Write | src/lv2_evbuf.c:161-191 | in the byte array, for any capacity and any offset at which an accepted event stays inside: the new image, the answer and the new iterator |
| Evbuf.EventBuffer.WriteAtEnd | src/process.c:78-81 | a write at the end keeps a sound buffer sound, and appends the event to what an input buffer represents, answering whether it fitted |
| Comm.HeaderRoundTrip | src/comm.h:38-41 | whatever follows a message, its first 8 bytes read as its type and payload size, and leave its payload |
| Comm.BodyRoundTrip | src/comm.h:48-80 | reading as many bytes as announced yields exactly the payload, which decodes to the message, for every type |
| Comm.EncodeAllInjective | src/comm.h:31-80 | two series of messages with the same bytes are equal, so nothing can be merged or split |
| Comm.WireFormat | src/comm.h:22-80 | what a message of each type looks like in the ring, byte by byte |
| Comm.WriteSplitMessage | src/comm.c:11-27 | both parts are published together exactly if both fit; otherwise nothing is, and the write fails |
| Comm.WriteEvent | src/comm.c:29-47 | success exactly if header and body fit, and then the ring has one more encoded event transfer; the truncated size field is exact whenever the message fits |
| Comm.WriteControl | src/comm.c:49-65 | success exactly if 16 bytes fit, and then the ring has one more encoded control change |
| Comm.ReceiveHeader | src/process.c:53-56 | with a whole message in front, and whatever the writer commits meanwhile, the read returns a whole header with the message's type and size |
| Comm.ReceiveBody | src/jalv.c:561-565 | likewise the body: exactly the payload, leaving exactly what follows |
| Processing.ApplyAllMeaning | src/process.c:46-116 | applying messages in order leaves each control at the last value sent to it, the last run state, and on each input, after what it had, the events for it that fitted, in order |
| Processing.ApplyOne | src/process.c:58-112 | each type of message changes only its control, its input or the run state, and leaves acceptable messages acceptable |
| Processing.AcceptedCanBeReceived | src/process_setup.c:90-130 | with the size that the receive buffer gets, a transfer of any event that some input could take fits it; so one that does not, which is asserted and not checked at src/process.c:69, is of an event that no input could take |
| Processing.ReceiveSizeLeast | src/process_setup.c:90-130 | the receive buffer is no bigger than the minimum or the greatest capacity of an event input |
| Processing.Process.constructor | src/process_setup.c:32-65 | the process begins paused, with nothing posted, no pending frames and empty inputs |
| Processing.Process.Deliver | src/process.c:75-96 | an event for a port is appended to the bytes of its buffer if it fits, and no other buffer changes |
| Processing.HoldsAppended | src/process.c:75-96 | whatever an input holds, a write at the end stays in its memory and adds the padded size of the event if it fits; an input written only at its end represents one more event |
| Processing.Process.ApplyControlChange | src/process.c:58-66 | the control of the message, and no other, takes the value of the message |
| Processing.Process.ApplyEventTransfer | src/process.c:68-81 | the input of the message receives its type and body at the end of the cycle |
| Processing.Process.ApplyRunStateChange | src/process.c:98-108 | the run state becomes that of the message, and the semaphore is posted once exactly for a pause |
| Processing.Process.ApplyMessage | src/process.c:58-112 | one message after its header: its whole payload is consumed and applied; an unknown type is refused with the state untouched |
| Processing.Process.ApplyUiEvents | src/process.c:46-116 | while the UI commits more before every read: exactly the messages counted on entry are applied, as the fold of single applications, each pause is posted once, and the ring is left on a message boundary with exactly what arrived late; an unknown type stops it at a known point |
| Processing.Process.Run | src/process.c:118-150 | the messages are applied, the plugin is then run once, on the result, the responses of both workers are emitted and the worker is told of the end, and the update counter follows; the status is the error of the messages, or that updates are due, or success |
| Processing.Process.FinishRun | src/process.c:134-138 | the responses of the state worker and then of the worker are emitted, those added meanwhile included, and the process itself is left alone |
| Processing.Process.CountFrames | src/process.c:140-147 | the update counter and the status follow the counter of the update period, but an error stands |
| Processing.Process.Bypass | src/process.c:152-158 | a bypassed cycle applies the messages all the same, does not run the plugin, leaves the update counter alone and answers 0 |
| UiUpdates.Ui.Dispatch | src/jalv.c:567-582 | what is dispatched of a body is the message that was encoded |
| UiUpdates.Ui.Receive | src/jalv.c:556-565 | a whole message is read, within the receive buffer, whatever is committed meanwhile |
| UiUpdates.Ui.Update | src/jalv.c:536-587 | while the audio thread commits more: exactly the messages counted on entry are dispatched, in order, all of them if none is a state request or a run state, and else those before the first such one; the updating flag is cleared on every path; before opening, or after the done signal, nothing is read or changed |
| UiUpdates.MessageSizeCovers | src/jalv.c:141-150 | the receive buffer is at least as big as the buffer of every output port, whichever default applied when |
| UiUpdates.MessageSizeLeast | src/jalv.c:141-150 | it is no bigger than anything that covers all that the ports ask for and the default |
| UiUpdates.MessageSizeAsked | src/jalv.c:141-150 | a port gets at least what it asks for, and at least the default if it asks for nothing |
| UiUpdates.ForwardedEventsFit | src/jalv.c:992-994 | every event of a sequence whose size keeps to the announced capacity of its output buffer fits the receive buffer with its transfer header |
| Jack.WriteNext | src/jack.c:183-193 | a write through the advancing iterator is the next step of writing a series from the beginning |
| Jack.PreProcessEventInput | src/jack.c:177-195 | whatever was in the buffer: its image after writing the transport report and the MIDI events from the beginning, and its size; from an empty buffer, exactly those that fit are appended; if all fit, it represents them if and only if it was empty |
| Jack.WrittenSize | src/jack.c:178-193 | the size grows exactly as if the events were appended to what was there, although they are written over it |
| Jack.WrittenFromEmpty | src/jack.c:178-193 | in an empty buffer the iterator stays at the end, and the buffer represents the events that fitted |
| Jack.IntendedExactlyIfEmpty | src/jack.c:177-195 | the events of a whole cycle that fit with what is in the buffer are what it represents afterwards if and only if it was empty |
| Jack.BypassSpoils | src/jack.c:273-276 | a bypassed cycle that applies a transfer leaves its event in an empty input, and a next cycle whose events would fit is then not what the buffer represents |
| Jack.PrepareInputs | src/jack.c:283-285 | every input is prepared with what arrived for it, and nothing else changes |
| Jack.ResetInputs | src/jack.c:291-294 | the buffer of every event input is, byte by byte, that of no events |
| Jack.ProcessCallback | src/jack.c:272-294 | paused: the messages are applied, their events stay in the inputs, and the plugin does not run; otherwise the plugin runs once, and gets on each input that was empty the report of the transport exactly if it supports it and what it believes is wrong, then MIDI and then the events of the UI, each if it fits, and ordered in time if MIDI is; the workers follow, and the buffers of all inputs are those of no events afterwards |
| Jack.RunCycle | src/jack.c:282-294 | the same for a cycle that runs the plugin, with any arrivals |
| Jack.TwoCycles | src/jack.c:282-294 | in the second of two cycles the plugin gets exactly what that brings and fits, whatever was in the inputs before and whatever the first brought |
| Jack.InputsTimeOrdered | src/jack.c:177-195 | transport at 0, sorted MIDI inside the cycle and then any UI events leave the input ordered in time, whichever events did not fit |
| Jack.AloneExactlyIfEmpty | src/jack.c:178-193 | a single event written from the beginning is all that the buffer represents if and only if the buffer was empty |
| Jack.PostProcessEventOutput | src/jack.c:233-258 | for a sequence, or the chunk of a plugin that wrote nothing, and while the UI reads: the bytes added to the ring are exactly the encodings of the events whose write succeeded, in order, and JACK gets exactly the MIDI events |
| Jack.MidiRoundTrip | src/jack.c:191-254 | MIDI that a plugin passes on comes out with the times and bytes that it came in with, and events of other types on the same port do not come out |
| Jack.ForwardEvent | src/jack.c:256-257 | one event adds its encoding to the ring exactly if its write succeeded |
| Delivery.EveryInterleavingDelivers | src/jalv.c:551-583 | in every interleaving of writes with the reads of headers and bodies: no read is short, no byte misread, and what came out is a prefix of what went in |
| Delivery.DrainsWhatItCounted | src/process.c:49-56 | the loop over the space counted on entry ends, on a message boundary and without overshooting, exactly when the messages counted have been received |
| Delivery.EmptyMeansAllReceived | src/process.c:49-56 | between messages, the ring is empty if and only if everything sent has been received |
| Delivery.ReadsAreWhole | src/process.c:52-74 | in every interleaving a header is in the ring whenever the loop goes on, and then the whole of its body |
| Delivery.ReaderDrains | src/jalv.c:551-583 | from every reachable state the reader on its own receives everything that has been sent |
| Forwarding.SentAreKept | src/comm.c:18-26 | what went into the ring in any run is what was attempted without the writes that did not fit |
| Forwarding.TransfersKept | src/jack.c:233-258 | control and latency messages in between do not affect which events are kept, or their order |
| Forwarding.PortTransfersAreKept | src/jack.c:240-258 | the loop over a port and the run of the machine keep the same messages |
| Forwarding.TransfersDelivered | src/comm.c:18-26 | of the transfers that any run attempts, the UI has received a prefix of those that fitted, and all of them once the ring is empty |
| Forwarding.RunKeepsLoop | src/jack.c:240-258 | the loop over the bytes of the output buffers attempts exactly one write for each event that they represent, in order, whatever the UI does |
| Forwarding.LoopGoesOn | src/jack.c:240-242 | in every run the next round of the loop is possible exactly while an event is left, and the loop then ends |
| Forwarding.WritesOfStep | src/jack.c:256-257 | the writes that the audio thread attempts are the one of each round of the loop, for the event at the iterator, and messages of other types |
| Forwarding.EventsReachUi | src/jack.c:240-257 | end to end, from the bytes of any buffers left over any cycles, in every interleaving with the UI: the writes attempted are those for the events of the buffers, each once and in order; the UI has received a prefix of those that fitted, and all of them once the ring is empty |
| Forwarding.LoopFinishes | src/jack.c:240-258 | from every reachable state the audio thread on its own finishes its loop |
| Forwarding.AllEventsReachUi | src/jack.c:240-257 | from every reachable state both threads can come to an end, where each event of each buffer has been attempted once, and each whose write succeeded has been received, in order |
| PauseProtocol.RunKeepsInv | src/state.c:181-225 | the invariant of the handshake: for each place in jalv_apply_state, what is still to be applied, the run state, the semaphore and the audio thread can be, in every interleaving, also between the read of a header, the read of its body, the store of what it says and the post |
| PauseProtocol.ResumeFits | src/state.c:215-224 | a state application that paused always has room for its message to resume |
| PauseProtocol.PauseWindow | src/state.c:191-224 | from the return of the wait until the message to resume is applied, the process is paused, each cycle that starts bypasses the plugin, and one that still runs it is the one that applied the pause |
| PauseProtocol.PausedCycleBypasses | src/jack.c:273-276 | a cycle that begins in the paused state does not run the plugin, whatever happens during it |
| PauseProtocol.RunningCycleRuns | src/jack.c:287-288 | a cycle that begins otherwise does not end without having run the plugin |
| PauseProtocol.TookPauseMeans | src/process.c:101-108 | that a cycle took the message to pause means that the audio thread applied that message since the cycle began |
| PauseProtocol.RunInWindowTookPause | src/process.c:98-131 | every cycle that runs the plugin in the window began in the running state and has applied the message to pause since |
| PauseProtocol.ApplicationEnds | src/state.c:201-225 | after its wait nothing keeps the UI thread from the end of a state application |
| PauseProtocol.PausesConserved | src/state.c:193-224 | pauses written = still to be applied + being posted + semaphore + waits completed, in every state; the semaphore is at most 1, and 0 outside of state applications; written run states alternate, beginning with a pause |
| PauseProtocol.ControlsKeepOrder | src/state.c:154-163 | in every run whose state applications begin running or with no control pending, each control has the last value issued for it, queued or direct, once nothing is pending, but for those that the audio thread sets to the tempo |
| PauseProtocol.TempoOverrides | src/jack.c:199-203 | a control for the tempo does not keep the value that the UI issued: a cycle stores the tempo over it |
| PauseProtocol.OrderViolated | src/state.c:157-159 | a direct write that overtakes a queued value for the same port leaves the older value in the end |
| PauseProtocol.OrderKeptExactlyIf | src/state.c:191-199 | a state application keeps the order of control values, whatever happens until the next, if and only if it finds the process running or no value still to be applied for a control that only the UI sets |
| PauseProtocol.OrderViolationReached | src/state.c:154-163 | from the start, for every such control: two state applications in one cycle, and a value sent between them, which the second then overtakes |
| PauseProtocol.AudioDrains | src/process.c:49-116 | from every reachable state the audio thread alone empties the ring and comes to rest between cycles |
| PauseProtocol.WaitsForever | src/state.c:196-198 | if the message to pause was dropped, no continuation lets the wait return |
| PauseProtocol.WaitReturnsExactlyIf | src/state.c:196-198 | some continuation lets the wait return if and only if the message to pause fitted the ring |
| PauseProtocol.EndlessWaitReached | src/state.c:193-199 | from the start, for every capacity: control values and one event of a few bytes fill the ring, and the UI thread waits whatever happens |
| PauseProtocol.ExclusiveExactlyIf | src/state.c:191-213 | for a plugin whose restore is not thread-safe, no cycle that runs it begins during the restore, whatever happens until the next, if and only if the process is running when it begins, or the plugin has not been activated |
| PauseProtocol.OverlapMeans | src/jack.c:273-276 | a run has an overlap if and only if a cycle began in it during a restore and not in the paused state |
| PauseProtocol.OverlapReached | src/state.c:191-224 | from the start, a run with two state applications in which a cycle that runs the plugin begins during the second restore |
| PauseProtocol.OverlapReachedWithEmptyRing | src/process.c:101-105 | the same although the ring is empty when the second state application begins: the message to resume has been read and not yet stored |
| PauseProtocol.EchoMeetsOnlyPausingCycle | src/state.c:165-168 | while a plugin that was paused is restored and a value is echoed to the ring of the UI, a cycle that runs the plugin and may write that ring began in the running state and has applied the message to pause since |
| PauseProtocol.EchoMeetsPausingCycle | src/state.c:165-168 | such a cycle can indeed be about to forward its outputs during the echo |
| PauseProtocol.EchoMeetsAnyCycle | src/state.c:165-168 | if the restore is thread-safe, so can a cycle that took no message |
| PauseBytes.RunIsDelivery | src/process.c:49-104 | every run of the handshake is a run of the ring of bytes with the same writes and reads: the bytes in the ring are those of the queue, and a message fits the one exactly if it fits the other |
| Workers.PacketRoundTrip | src/worker.c:74-83 | a size read from the front of a packet is that of its data, which is then read whole, leaving what follows |
| Workers.PacketFormat | src/worker.c:43-49 | what a packet looks like in the ring, byte by byte |
| Workers.Worker.constructor | src/worker.c:102-127 | a threaded worker begins stopped, another single-threaded, with no token |
| Workers.Worker.WritePacket | src/worker.c:38-51 | size and data are published together exactly if both fit; otherwise nothing is, and there is no space |
| Workers.Worker.Schedule | src/worker.c:181-211 | without a worker, an error; else for every state: the answer, the request and its token, or the immediate execution under the lock, which is free again afterwards; success means queued or executed if and only if the worker need not exit |
| Workers.Worker.ServeRequest | src/worker.c:74-94 | while more is scheduled: exactly the first request is taken from the ring, whole, and executed under the lock, or skipped if there is no memory |
| Workers.Worker.EmitResponses | src/worker.c:213-228 | while the worker thread adds more: the responses in the ring on entry and those added until it is found empty are emitted, each once and in order |
| Workers.Worker.Work | src/worker.c:86-89 | the work() method of the plugin is called only while the lock is held |
| WorkerProtocol.RunKeepsInv | src/worker.c:61-211 | the invariant of scheduling, serving, exit and relaunch, in every interleaving of the audio, worker, main and state threads |
| WorkerProtocol.ExactlyOnceInOrder | src/worker.c:61-100 | accepted requests = those executed or skipped, then the one in flight, then those whose packets are in the ring, in order, through any number of exits and relaunches; no read is ever short |
| WorkerProtocol.SkippedExactlyWithoutMemory | src/worker.c:77-94 | the k-th request that was taken is executed if there was memory for it, and skipped if and only if there was not |
| WorkerProtocol.ExecutedMeansWorked | src/worker.c:85-89 | the requests noted as executed are those for which a work() call has finished, in order |
| WorkerProtocol.TokensHavePackets | src/worker.c:67-84 | the semaphore never exceeds the packets in the ring, plus one once exit has posted; a thread past its check has a whole packet in front of it |
| WorkerProtocol.WorkIsExclusive | src/worker.c:85-89 | work is done only under the lock shared with the state worker, at most once more after a request to exit, and there is no thread once the worker is stopped and joined |
| WorkerProtocol.WorksAfterExit | src/worker.c:160-168 | after each request to exit, and before a relaunch, at most one more work() call finishes |
| WorkerProtocol.ExitApproaches | src/worker.c:160-168 | once exit has posted, no step of any thread takes the worker thread away from its end, and each of its own steps takes it nearer |
| WorkerProtocol.ExitStepProceeds | src/worker.c:67-99 | once exit has posted, there is always a step that takes the thread nearer to its end, if need be after the state worker unlocks |
| WorkerProtocol.ExitCompletes | src/worker.c:160-168 | from every state with an exit posted, the thread can stop and be joined with no help but the unlocking of the state worker |
| WorkerProtocol.NoWorkUntilRelaunch | src/worker.c:141-168 | after the join and until the next launch nothing is executed or taken from the request ring, which keeps its bytes and gains at most the packet of a request that had passed its check |
| WorkerProtocol.ScheduleSteps | src/worker.c:189-196 | without interruption: a request is accepted, with its token, exactly if the worker is launched, the request is not empty and its packet fits; else nothing changes |
| WorkerProtocol.ServeSteps | src/worker.c:67-95 | without interruption: a round takes one token and the first request, and executes or skips it |
| WorkerProtocol.LaunchSteps | src/worker.c:141-158 | without interruption: a launch makes a new semaphore and a thread and then sets the state; it stays stopped if there can be no thread |
| WorkerProtocol.ExitSteps | src/worker.c:160-168 | without interruption: an exit sets the state, posts a token and waits until the thread has finished |
| WorkerProtocol.LockSteps | src/worker.c:199-206 | while the state worker has the lock the thread waits for it |
| Symaps.StrcmpEqual | src/symap.c:95-99 | the comparison is 0 exactly for equal strings |
| Symaps.StrcmpLess | src/symap.c:84-106 | the order is that of dictionaries |
| Symaps.StrcmpTransitive | src/symap.c:84-106 | the comparison is an order |
| Symaps.AbsentAtInsertionPoint | src/symap.c:71-74 | a symbol that has an insertion point is not in the table |
| Symaps.InsertionPointUnique | src/symap.c:71-74 | there is at most one place where a symbol can be inserted |
| Symaps.InsertKeepsIndex | src/symap.c:157-169 | inserting the new ID at that place leaves a permutation of the IDs, strictly sorted by the symbols that they name |
| Symaps.IndexedDistinct | src/symap.c:27-30 | a table with such an index has no symbol twice |
| Symaps.Symap.constructor | src/symap.c:34-46 | an empty table |
| Symaps.Symap.Search | src/symap.c:75-113 | exact if and only if the symbol is in the table, and then its place in the index; otherwise its insertion point; it terminates without underflow |
| Symaps.Symap.TryMap | src/symap.c:115-125 | the place of the symbol in the plain list, from 1, or 0 exactly if it is absent |
| Symaps.Symap.Unmap | src/symap.c:174-186 | the symbol at that place, exactly for the IDs 1 to the size |
| Symaps.Symap.Map | src/symap.c:127-172 | the plain list and the ID afterwards, also when either allocation fails, and the index invariant is kept |
| Symaps.Symap.Add | src/symap.c:138-171 | a new symbol goes to the end of the list exactly if both arrays could grow; otherwise nothing is mapped and the table stays valid |
| Symaps.Symap.Store | src/symap.c:157-169 | the symbol at the end, and its ID in the sorted index, in arrays that have grown |
| Symaps.Symap.InsertAt | src/symap.c:161-169 | the shift moves the rest of the index by one and loses nothing |
| Symaps.AnswerNamesSymbol | src/symap.c:127-186 | unmapping the ID just mapped gives the symbol |
| Symaps.AnswerIsId | src/symap.c:127-172 | every call returns the place of its symbol in the list after it, or 0 if it is not there |
| Symaps.AnswersExactlyIf | src/symap.c:131-155 | a call succeeds if and only if there was memory for its symbol then or in an earlier call |
| Symaps.NewIdsFollow | src/symap.c:131-139 | a symbol that is mapped keeps its ID, and a new one gets the next |
| Symaps.IdsAreStable | src/symap.c:127-186 | whatever is mapped later, an ID still unmaps to its symbol, and the symbol still maps to it |
| Symaps.SameIdExactlyIf | src/symap.c:127-172 | two successful calls return the same ID if and only if their symbols are equal |
| Symaps.FirstSeenOrder | src/symap.c:127-172 | the table holds exactly the symbols for which there was memory once, in the order of the first such calls |
| Updates.UpdateRate | src/process.c:140-147 | from any pending count, the frames of a run and the number of updates bound each other, and the count stays within the period |
| Updates.UpdateRateBounds | src/process.c:140-147 | k updates over F frames in blocks of at most N with period U satisfy k(U+1) <= F <= k(U+N)+U |
| Updates.PendingSinceUpdate | src/process.c:140-147 | the count is the sum of the frames since the last update |
| Updates.DueExactlyIf | src/process.c:143-145 | an update is due if and only if more frames than the period have passed since the last |
| Updates.NoPeriodNoUpdates | src/process.c:141 | without a period there are no updates and nothing is counted |
| Transports.NarrowTwice | src/jack.c:153 | the conversion of a double to a float, rounding to even, changes nothing the second time |
| Transports.RoundNearest | src/jack.c:153 | the significand is rounded to the nearest, and to even if two are as near |
| Transports.NarrowNearest | src/jack.c:153 | a double becomes the float with the rounded significand, also where that carries |
| Transports.InitialTempo | src/process_setup.c:57 | the initial tempo is 120 |
| Transports.DeadReckoning | src/jack.c:146-154 | between reports the expectation is the last report extrapolated over all frames since, modulo 2^32, and its tempo is the float that was last reported |
| Transports.SilentMeansPredicted | src/jack.c:146-149 | a cycle is silent if and only if JACK's answer is the position and speed that a plugin extrapolates from the last report, and its tempo equals, as a double, the float last reported |
| Transports.RepeatedTempoSilentExactlyIf | src/jack.c:149-153 | a repeated tempo, with position and speed as extrapolated, is silent if and only if it is a float |
| Transports.UnevenTempoNeverSilent | src/jack.c:149-153 | a transport that stands still at 120.1 beats per minute is reported in every cycle |
| Transports.Transport.constructor | src/process_setup.c:56-58 | the first expectation: stopped at frame 0 at 120 beats per minute |
| Transports.Transport.Process | src/jack.c:140-154 | over the whole history of cycles: a change is reported if and only if what the plugin believes from the reports before is not what JACK answers; the fields are then what it believes from the reports so far |

## Left out

- JACK, lilv, suil, serd and sratom: JACK's answers and MIDI, and what a plugin does in run() and work(), are parameters or arbitrary steps.
- zix: a ring is a bounded FIFO of bytes with transactional writes, and a semaphore a counter. That its operations are atomic is taken from its contract.
- Floating point: control values are their bits. Tempi are rounded to floats exactly, but with unbounded exponents, so that tempi beyond the range of floats are not modelled; the conversion of a latency to float is not part of the model.
- Machines with a 32-bit `size_t` or the most significant byte first: the guard's arithmetic and the layout of words are those of 64-bit little-endian machines.
- What the source asserts of its callers (ports exist, messages fit the receive buffer of the process thread) are preconditions. So is a ring of at least 20 bytes for the handshake; `src/jalv.c:775` makes it 4096 or more.
- Event inputs whose capacity is not safe in the sense of `Evbuf.SafeCapacity`: for them the guard is shown not to be exact, and runs are not followed further.
- PauseProtocol.Next: deactivation is not among its steps, and an echo to the UI is a place in the restore, not a write to a ring.
- Processing.Process.Run: what the plugin does in run() is not modelled.
- Workers.Lock: waiting for it is one step, after which it is taken; who else holds it is the subject of WorkerProtocol.
- Processing.Process.ApplyUiEvents: the bytes that a transfer announces for its atom are those of its payload, as jalv_write_event writes them; other bodies are not modelled.
- Jack.ProcessCallback: the outputs of a cycle are not in it, but in Jack.PostProcessEventOutput and Forwarding; nor is silence on system outputs.
- jalv_set_control, jalv_send_to_plugin and the forging of patch messages: they end in the two encoders that are modelled.
- Control outputs, latency notification and the report of the tempo to the UI in `src/jack.c`: single writes with the same encoders.
- Block-size changes while running: they reallocate event buffers without the UI's receive buffer.
- Memory allocation, except for the failures in symap_map and in the worker thread; failure to copy a symbol is unchecked in the source as well.
- Symaps.Symap.Map: IDs are unbounded; the 32-bit count of the source would need 2^32 symbols to wrap. The lock around the table in `src/mapper.c` is not part of this model.
- The PortAudio backend, user interfaces, option and command parsing, logging and dumping.
