# Device status service: verified model

This project models, in Dafny, the parts of the device status service whose correctness depends on state, order or
arithmetic, and proves what those parts promise. Code that works by changing things is written as methods over mutable
state, each proved against a specification function; the promises are lemmas about those functions, about every run, or
about every interleaving.

- **Packets over a byte stream** (`Bytes`, `StreamBuffer`, `NetPacket`, `StreamSocket`, `SendMsg`). A packet is printed
  as an 8-byte little-endian header and a payload, sent in pieces, received in pieces of other sizes into a compacting
  2048-byte buffer, and parsed from there. However the stream is cut, the receiver sees the packets sent, in order, if
  and only if every chunk fits when it arrives.
- **Simulated input devices** (`Reals`, `TouchMotion`, `TouchProtocol`, `VirtualTouchscreen`, `VirtualMouse`). A finger
  glides to its target in rounded steps; the events it emits are read back by an independent reader of the Linux type A
  multi-touch protocol. The mouse spends an exact step budget and drifts by a bounded amount.
- **Delegated tasks** (`IdFactory`, `DelegateTasks`, `TaskProtocol`). Posters and the worker thread are interleaved
  between writing a token, pushing, reading a token, popping, and each step of running a task; nothing goes wrong on the
  way, and everything accepted gets done.
- **Posture detection** (`Posture`, `SensorHandOff`). Samples cross from the sensor's threads to the debounced state
  machines that are subscribed to them; what is reported is a function of the sample history.
- **Service state** (`MetadataRounds`, `StreamServer`). Metadata rounds with their timer threads, and the session table
  with its process index.
- **Drag data and text** (`Parcel`, `DragDataPacker`, `Words`, `StringSplit`, `DeviceNames`). The nested packing of drag
  data, the two string splitters, and the in-place normalisation of device names.

`dafny verify dfyconfig.toml` checks everything.

## Where the code falls short of its promise

Each of these is a theorem with the exact condition, or a theorem that exhibits the case.

- The receive loop drops a chunk that does not fit as a whole, so a legal way of cutting a legal stream loses packets
  (`SomeFragmentationLoses`); `LosslessIffAllFit` gives the condition for bytes and `PacketsArriveIffAllFit` for packets.
- The parser accepts headers announcing up to 2048 bytes, but a payload over 2040 can never be completed in the buffer:
  the connection then never delivers again (`DeliversAgainIff`; eight bytes are enough, `HeaderWedges`).
- The cap of 100 packets per call does more than delay: packets beyond it stay in the buffer until the peer sends something
  else (`AllArrivedIffAtMost100`, `CapHoldsBack`), and the room they take can make a later chunk be dropped (`CapLoses`). A
  condition that excludes both beforehand is that the longest frame and the longest chunk have at most 808 bytes together
  (`SmallChunksArrive`).
- `MakeData` ignores a failed header write, so it reports success for an empty packet of which nothing was written
  (contract of `NetPacket.MakeData`, `EmptyPacketVanishes`).
- `SendMsg` reports failure for a message whose last byte is taken by the 32nd call (`SendSchedules.Outcome`, used in the
  contracts of both loops, says when; `FalseFailure` is a case).
- A mouse move misses its target when the rounded steps do not add up to the displacement (`MoveArrivesIff`, in every
  direction and at every length). Along an axis it misses by one unit when the distance is from 6 to 5000 and leaves 2 or 4
  modulo 5, and stops after 5000 when it is longer (`AxisMoveExactIff`).
- `RecoveryId` accepts ids that nobody holds: the counter itself, ids of queued tasks, 0 and negative numbers. Each leaves
  the ids no longer shared out one by one (`RecoverSharedIff`; `RecoveringTheCounterDuplicates` shows two equal ids). No reachable state of
  the task queue does so (`IdsConserved`).
- `Marshalling` succeeds although the delay flag was not written; the flag arrives if and only if it fitted or was false
  (`DelayArrivesIff`, `DelayLost`). It also packs more than 1024 summaries, which `UnMarshalling` refuses
  (`DragDataRoundTrip`, `TooManySummaries`).
- A listener's metadata is checked against the bundle of its first unanswered round (`SentIffBundleMatches`), so the bundle
  of the current round decides if and only if no other name is cached (`CurrentBundleDecidesIff`, `FirstBundleDecides`).
- A decode request diverts the answer of the open round to another callback (`OwnListenerAnsweredIff`, `DecodeDiverts`).
- A timer answers whatever round is open, so the timer of an answered round can close the next one before its time
  (`StaleTimerAnswers`); `OwnTimerAnswersIff` says when it answers its own round.
- The process index goes wrong exactly for process numbers below 1 and for a descriptor registered for two processes
  (`DelAgreesIff` with `ProcessZeroStaysIndexed`, `AddAgreesIff` with `DescriptorTakenTwice`).
- A session under descriptor 0 is admitted and indexed, and its lookup fails (`LookupRightIff`, `DescriptorZeroIsLost`).
- The lookup of a process that is not indexed finds whatever session sits under the sentinel descriptor (`LookupOwnIff`).
- Deleting one of two sessions of a process takes the other one out of the index (`EveryoneIndexedIff`,
  `NewerSessionUnindexed`).

## Model

| member | source | states |
|---|---|---|
| Bytes.DecodeEncodeInt32 | utils/ipc/include/net_packet.h:25-30 | every int32 of a header is read back from its four little-endian bytes |
| Bytes.EncodeDecodeInt32 | utils/ipc/include/net_packet.h:25-30 | every four bytes are the image of the int32 they are read as |
| Bytes.LittleEndian | utils/ipc/include/net_packet.h:25-30 | the least significant byte comes first |
| StreamBuffers.StreamBuffer.constructor | utils/ipc/include/devicestatus_stream_buffer.h:76-81 | a new buffer is empty and free of error |
| StreamBuffers.StreamBuffer.Reset | utils/ipc/src/devicestatus_stream_buffer.cpp:35-42 | empties the buffer and clears the sticky error |
| StreamBuffers.StreamBuffer.SeekReadPos | utils/ipc/src/devicestatus_stream_buffer.cpp:54-64 | succeeds exactly when the new position lies within the written bytes, and otherwise moves nothing |
| StreamBuffers.StreamBuffer.Read | utils/ipc/src/devicestatus_stream_buffer.cpp:93-124 | takes exactly the requested bytes off the unread ones, or fails for good, for every size |
| StreamBuffers.StreamBuffer.Write | utils/ipc/src/devicestatus_stream_buffer.cpp:126-157 | appends the whole chunk or nothing, for chunks of every size; a refusal makes the error sticky |
| CircleStreamBuffers.CopyDataToBegin | utils/ipc/src/circle_stream_buffer.cpp:22-34 | the in-place slide, one byte further than needed, keeps the unread bytes |
| CircleStreamBuffers.CheckWrite | utils/ipc/src/circle_stream_buffer.cpp:36-45 | compaction keeps the unread bytes; the answer counts them and not the space already read |
| CircleStreamBuffers.Write | utils/ipc/src/circle_stream_buffer.cpp:47-56 | a bounded byte queue: accepts exactly what fits beside the unread bytes, and refuses a legal chunk without a trace |
| NetPackets.NetPacket.GetPacketLength | utils/ipc/include/net_packet.h:43-46 | header size plus payload size |
| NetPackets.NetPacket.MakeData | utils/ipc/src/net_packet.cpp:31-42 | all outcomes on any buffer: whole frame, header only, or nothing, with the result reported in each |
| NetPackets.Print | utils/ipc/src/stream_session.cpp:105-109 | on a fresh buffer printing succeeds exactly for payloads of at most 2040 bytes and gives the frame |
| StreamSockets.ParseFrame | utils/ipc/src/stream_socket.cpp:81-107 | a whole frame at the front is recognised as its packet, whatever follows it |
| StreamSockets.ParsePartialFrame | utils/ipc/src/stream_socket.cpp:84-101 | a proper prefix of a frame is taken neither for a packet nor for garbage |
| StreamSockets.ReadPacket | utils/ipc/src/stream_socket.cpp:83-112 | one loop iteration does what the specification says, and its write-failed and seek-failed branches are never taken |
| StreamSockets.OnReadPackets | utils/ipc/src/stream_socket.cpp:79-119 | delivers the next packets in order, at most 100, and leaves exactly the rest |
| StreamSockets.OnEpollRecv | services/native/src/stream_server.cpp:217-249 | one readiness event equals receiving, one after the other, the chunks its up to 13 `recv` calls return |
| StreamSockets.ParseStreamPrefix | utils/ipc/src/stream_socket.cpp:79-119 | against any prefix of a stream of frames a call delivers the next packets and never resets as corrupt |
| StreamSockets.DecodeStream | utils/ipc/src/net_packet.cpp:31-42 | parsing a printed list of packets gives the list |
| StreamSockets.PrintParsed | utils/ipc/src/stream_socket.cpp:90-107 | printing a parsed packet gives back the bytes it came from |
| StreamSockets.ParseConserves | utils/ipc/src/stream_socket.cpp:79-119 | on any bytes, a call that meets no corrupt header conserves them: delivered frames followed by the rest |
| StreamSockets.FramingSurvives | utils/ipc/src/stream_socket.cpp:79-119 | for every cut in which each chunk fits, after every chunk: delivered packets followed by those still to be read are the packets sent |
| StreamSockets.LosslessIffAllFit | services/native/src/stream_server.cpp:223-231 | nothing is lost if and only if every chunk fits when it arrives |
| StreamSockets.PacketsArriveIffAllFit | services/native/src/stream_server.cpp:223-231 | delivered packets followed by those still to be read are the packets sent, if and only if every chunk fits when it arrives |
| StreamSockets.SomeFragmentationLoses | services/native/src/stream_server.cpp:228-230 | a legal stream cut into legal `recv` results of which one is dropped |
| StreamSockets.UnderTheCap | utils/ipc/src/stream_socket.cpp:82-118 | a call that stays under its limit leaves no complete frame behind |
| StreamSockets.AllArrivedIffAtMost100 | utils/ipc/src/stream_socket.cpp:82-118 | once all bytes are in, the last call hands out the next 100 packets, so everything if and only if at most 100 were left; the others stay whole |
| StreamSockets.CapHoldsBack | utils/ipc/src/stream_socket.cpp:82-118 | 101 empty packets in one chunk, of which the last stays in the buffer |
| StreamSockets.CapLoses | services/native/src/stream_server.cpp:223-231 | 255 empty packets in one chunk leave so much unread that the same chunk is dropped when it comes again |
| StreamSockets.SmallChunksArrive | utils/ipc/src/stream_socket.cpp:79-119 | if longest frame and longest chunk have at most 808 bytes together, every chunk fits, the cap is never felt, and all packets arrive |
| StreamSockets.OversizedHeaderWedges | utils/ipc/src/stream_socket.cpp:92-100 | after a header announcing more than 2040 bytes no later chunks make the connection deliver |
| StreamSockets.DeliversAgainIff | utils/ipc/src/stream_socket.cpp:92-100 | a waiting connection can deliver again if and only if its header announces at most 2040 bytes |
| StreamSockets.HeaderWedges | utils/ipc/src/stream_socket.cpp:92-100 | on a new connection, eight bytes announcing 2041 to 2048 are accepted and stop all delivery |
| StreamSockets.CorruptIffHopeless | utils/ipc/src/stream_socket.cpp:92-97 | a header counts as corrupt exactly when no bytes behind it could make it a packet |
| StreamSockets.CorruptHeaderRecovers | utils/ipc/src/stream_socket.cpp:92-97 | the packets before a corrupt header are handed out, and from then on the connection behaves as a new one |
| StreamSockets.OversizedHeaderForgotten | utils/ipc/src/stream_socket.cpp:92-97 | after a header announcing 3000 bytes the next packets arrive |
| StreamSockets.DroppedChunkStillDelivers | services/native/src/stream_server.cpp:228-231 | a dropped chunk still makes the parser hand out what is waiting |
| StreamSockets.DrainedIsData | services/native/src/stream_server.cpp:217-249 | an event takes the data up to the first failure, end of stream or short read, and of at most 13 calls |
| SendSchedules.OutcomeUnique | utils/ipc/src/stream_client.cpp:49-88 | the kernel's behaviour determines result, bytes sent and number of calls, so both loops agree |
| SendSchedules.AcceptedIsOffered | utils/ipc/src/stream_session.cpp:58-79 | whatever the calls would take is taken, up to the end of the message |
| SendSchedules.DoneIffOffered | utils/ipc/src/stream_session.cpp:56-85 | done within some calls exactly when calls without a hard error among them would take the whole message |
| SendSchedules.SentAtOnce | utils/ipc/src/stream_session.cpp:58-84 | a kernel that takes the whole message at once gets it in one call, with success |
| SendSchedules.SleepsCounted | utils/ipc/src/stream_client.cpp:59-80 | the session sleeps after every call but the finishing one, the client not after a call that took nothing |
| SendSchedules.FalseFailure | utils/ipc/src/stream_session.cpp:80-84 | 32 bytes of which each call takes one all arrive, and failure is reported |
| StreamSessions.SendMsg | utils/ipc/src/stream_session.cpp:45-85 | the wire carries a prefix, at most 32 calls, true exactly if done within 31, with the one case of a false failure |
| StreamSessions.SendPacket | utils/ipc/src/stream_session.cpp:99-111 | succeeds exactly when the packet is sound, fits and is taken in time; then its whole frame is on the wire |
| StreamClients.SendMsg | utils/ipc/src/stream_client.cpp:49-88 | the same outcome as the session's loop, with fewer sleeps |
| EndToEnd.SentPacketsArrive | utils/ipc/src/stream_session.cpp:99-111 | if every send reported success and every received chunk fits, the receiver gets exactly the packets sent |
| TouchMotion.RoundedStepIsRounding | tools/vdev/src/virtual_touchscreen.cpp:184-189 | the integer step equals `round(step * d / total)` whenever the length is exact |
| TouchMotion.StepIsRounding | tools/vdev/src/virtual_touchscreen.cpp:179-190 | a whole step, for the exact distance, in the terms of the code |
| TouchMotion.LandsIffNear | tools/vdev/src/virtual_touchscreen.cpp:180-182 | a step lands exactly when the distance is at most 10 |
| TouchMotion.StepProgress | tools/vdev/src/virtual_touchscreen.cpp:178-190 | a step lands or comes at least 6 closer, moves at most 10 per axis, and never overshoots |
| TouchMotion.PathReachesTarget | tools/vdev/src/virtual_touchscreen.cpp:178-194 | every motion ends on its target, stays on the screen, and takes at most a sixth of the distance plus one steps |
| TouchProtocol.FeedContacts | tools/vdev/src/virtual_touchscreen.cpp:83-96 | a list of contacts written as events is read back as that list |
| VirtualTouchscreens.ActiveDescribes | tools/vdev/src/virtual_touchscreen.cpp:86-95 | the contacts sent are exactly the active slots, with their places and numbers |
| VirtualTouchscreens.ClampNearest | tools/vdev/src/virtual_touchscreen.cpp:110-111 | a place is taken to the nearest one on the screen |
| VirtualTouchscreens.VirtualTouchScreen.constructor | tools/vdev/src/virtual_touchscreen.cpp:54-58 | no slot is active and nothing has been sent |
| VirtualTouchscreens.VirtualTouchScreen.SendTouchEvent | tools/vdev/src/virtual_touchscreen.cpp:83-96 | sends the contacts of the active slots in slot order |
| VirtualTouchscreens.VirtualTouchScreen.SendFrame | tools/vdev/src/virtual_touchscreen.cpp:191-193 | a reader sees one more frame, showing the active slots |
| VirtualTouchscreens.VirtualTouchScreen.DownButton | tools/vdev/src/virtual_touchscreen.cpp:98-123 | keeps the stream decoding to the slots; one more frame, showing the new finger with the button down |
| VirtualTouchscreens.VirtualTouchScreen.UpButton | tools/vdev/src/virtual_touchscreen.cpp:125-155 | keeps the stream decoding to the slots; the button goes up in a second frame exactly when no finger is left |
| VirtualTouchscreens.VirtualTouchScreen.Move | tools/vdev/src/virtual_touchscreen.cpp:157-196 | terminates on the clamped target, sending the frames of the path; refuses an inactive slot |
| VirtualTouchscreens.VirtualTouchScreen.StepOnce | tools/vdev/src/virtual_touchscreen.cpp:179-193 | one loop iteration: a step closer, shown in one frame |
| VirtualTouchscreens.VirtualTouchScreen.MoveTo | tools/vdev/src/virtual_touchscreen.cpp:198-213 | ends on the clamped point itself |
| VirtualTouchscreens.MotionIsSmooth | tools/vdev/src/virtual_touchscreen.cpp:178-194 | what a reader sees of a motion: only the moved finger changes place, by at most 10 per axis and frame, ending on the target |
| VirtualMice.StepsSpendBudget | tools/vdev/src/virtual_mouse.cpp:174-201 | exactly ceil(total / 5) steps, each in (0, 5], that add up to the budget |
| VirtualMice.UnitsBounded | tools/vdev/src/virtual_mouse.cpp:187-195 | a step is at most 5 units per axis, so the filters swallow no motion |
| VirtualMice.VirtualMouse.Move | tools/vdev/src/virtual_mouse.cpp:166-202 | the counted loop sends the motion of the whole budget and ends with nothing left |
| VirtualMice.VirtualMouse.SendStep | tools/vdev/src/virtual_mouse.cpp:187-199 | one iteration sends exactly its rounded motion |
| VirtualMice.MoveDrift | tools/vdev/src/virtual_mouse.cpp:174-201 | the pointer ends within half the number of steps of the ideal displacement, per axis |
| VirtualMice.MoveIsRead | tools/vdev/src/virtual_mouse.cpp:190-199 | a reader that counts motion when it is reported sees the sums of what was sent, nothing pending, in reports of 1 to 5 units |
| VirtualMice.MotionTravels | tools/vdev/src/virtual_mouse.cpp:178-201 | in every direction and for every budget, each axis travels its rounded full steps and two rounded halves of the rest |
| VirtualMice.MoveArrivesIff | tools/vdev/src/virtual_mouse.cpp:166-202 | a move arrives if and only if those sums are the displacement on both axes |
| VirtualMice.AxisMoveExactIff | tools/vdev/src/virtual_mouse.cpp:166-202 | a move along either axis arrives if and only if its length is at most 5, or at most 5000 and 0, 1 or 3 modulo 5; and where it ends otherwise |
| IdFactories.IdFactory.constructor | utils/common/include/id_factory.h:29-30 | the counter starts at 1 with no id given back |
| IdFactories.IdFactory.GenerateId | utils/common/include/id_factory.h:34-45 | the least id given back, or the counter, or 0 at its limit |
| IdFactories.IdFactory.RecoveryId | utils/common/include/id_factory.h:46-52 | adds the id to those given back unless it exceeds the counter |
| IdFactories.GenerateShared | utils/common/include/id_factory.h:34-45 | with at most 1000 queued tasks a new id is nonzero and not shared, and the counter stays within 1002 |
| IdFactories.PopShared | utils/common/include/id_factory.h:46-52 | the id of a popped task goes back without a clash |
| IdFactories.RecoverSharedIff | utils/common/include/id_factory.h:46-52 | giving back any number keeps the ids shared out, each once, if and only if it is above the counter, already given back, or held |
| DelegateTaskQueues.DelegateTasks.constructor | services/delegate_task/include/delegate_tasks.h:101-105 | an empty queue and pipe, with all ids accounted for |
| DelegateTaskQueues.DelegateTasks.PostTask | services/delegate_task/src/delegate_tasks.cpp:136-159 | succeeds exactly when the queue has room and the pipe takes the token; then one token and one task with a fresh id |
| DelegateTaskQueues.DelegateTasks.PopPendingTaskList | services/delegate_task/src/delegate_tasks.cpp:120-134 | takes the ten oldest tasks or all, in order, giving their ids back |
| DelegateTaskQueues.DelegateTasks.BeginSyncTask | services/delegate_task/src/delegate_tasks.cpp:86-96 | a call from the worker runs inline and changes nothing; any other posts exactly when there is room and the pipe takes the token |
| TaskProtocol.PostIsSteps | services/delegate_task/src/delegate_tasks.cpp:136-159 | the method `PostTask` is the protocol's steps: take an id, write the token, push, or their failing variants |
| TaskProtocol.PopIsStep | services/delegate_task/src/delegate_tasks.cpp:120-134 | the method `PopPendingTaskList` is one step of the protocol, and what it pops is the worker's batch |
| TaskProtocol.NoLostWakeup | services/native/src/devicestatus_service.cpp:560-574 | in every interleaving a queued task implies an unread token or a worker about to pop; with neither, everything accepted is finished |
| TaskProtocol.FinishedInPostOrder | services/delegate_task/src/delegate_tasks.cpp:76-84 | in every interleaving finished, popped and queued tasks are all accepted tasks, in post order |
| TaskProtocol.EverythingGetsDone | services/native/src/devicestatus_service.cpp:560-574 | the worker on its own always gets to a state where every accepted task is finished, and cannot stop before |
| TaskProtocol.PosterCanStep | services/delegate_task/src/delegate_tasks.cpp:86-110 | no poster is ever stuck, wherever it stands |
| TaskProtocol.WaitEnds | services/delegate_task/src/delegate_tasks.cpp:98-110 | a wait ends with the value of the promise if it is set and with giving up otherwise |
| TaskProtocol.IdsConserved | services/delegate_task/src/delegate_tasks.cpp:120-159 | in every reachable state the ids below the counter are shared out exactly once; at most 1001 tasks, counter at most 1002, id 0 never used |
| TaskProtocol.SyncPostFaithful | services/delegate_task/src/delegate_tasks.cpp:34-46 | a callback runs at most once, and a poster whose wait ended ready returns what that run of the callback returned |
| TaskProtocol.GivenUpRunsIffBegun | services/delegate_task/src/delegate_tasks.cpp:98-110 | after a poster gave up the callback never runs if and only if its task had not been begun by then |
| Posture.Algorithm.constructor | libs/include/algorithm/algo_base.h:60-61 | unknown state, full counter, no callback |
| Posture.Algorithm.UpdateStateAndReport | libs/src/algorithm/algo_base.cpp:64-73 | changes state and reports only with a callback |
| Posture.Algorithm.StartAlgorithm | libs/src/algorithm/algo_base.cpp:35-56 | out-of-range samples change nothing, the others drive the machine in device axes |
| Posture.Algorithm.ExecuteOperation | libs/src/algorithm/algo_vertical.cpp:53-80 | one step of the debounced machine, skipped samples included |
| Posture.StillByResultant | libs/src/algorithm/algo_absolute_still.cpp:56-59 | comparing squares classifies by the resultant between 7 and 11 |
| Posture.HorizontalNeedsBoth | libs/src/algorithm/algo_horizontal.cpp:53-60 | lying flat takes both angles, near zero or near a half turn alike |
| Posture.VerticalNeedsOne | libs/src/algorithm/algo_vertical.cpp:56-66 | standing upright takes one angle near a right one; samples without force across the screen are skipped |
| Posture.FiveInARow | libs/src/algorithm/algo_absolute_still.cpp:59-74 | the fifth sample in a row enters, the fourth does not, and one out of class leaves |
| Posture.RunIsHistory | libs/src/algorithm/algo_horizontal.cpp:57-75 | state, counter and all reports are functions of the history: entered at a trailing run of five, left when shorter after some sample out of class |
| Posture.RunInputsIsHistory | libs/src/algorithm/algo_base.cpp:64-73 | with callbacks set and cleared at any time, state and counter are functions of the samples and of when there was a callback |
| Posture.ReportsAlternate | libs/src/algorithm/algo_absolute_still.cpp:59-74 | whenever callbacks come and go, reports alternate and the counter stays in 1..5 |
| SensorHandOff.HandOffIsFifo | libs/src/datahub/sensor_data_callback.cpp:119-157 | with any number of producers the hand-off is lossless and in order, and a woken consumer finds a sample |
| SensorHandOff.SamplesGetThrough | libs/src/datahub/sensor_data_callback.cpp:207-224 | from every reachable state the posts that are due and the consumer alone hand on every accepted sample |
| SensorHandOff.ReportsAreHistory | libs/src/datahub/sensor_data_callback.cpp:85-117 | whatever algorithms and callbacks come and go, each subscribed algorithm has heard exactly the samples handed on since it subscribed, its state is a function of them and of when it had a callback, and its reports too while it always had one |
| SensorHandOff.MapIsHistory | libs/src/datahub/sensor_data_callback.cpp:85-107 | who is subscribed, and who has a callback, as functions of the history of calls |
| SensorHandOff.HeardWithCallback | libs/src/datahub/sensor_data_callback.cpp:109-117 | what an algorithm hears of a sample: its class in device axes, and whether a callback is set |
| SensorHandOff.AtRestAllNotified | libs/src/datahub/sensor_data_callback.cpp:207-224 | once the pipeline is at rest, all accepted samples have been handed on |
| MetadataRounds.DeviceStatusManager.constructor | services/native/include/devicestatus_manager.h:146-162 | no listener, no round, nothing submitted |
| MetadataRounds.DeviceStatusManager.Subscribe | services/native/src/devicestatus_manager.cpp:413-449 | adds the callback to its bundle |
| MetadataRounds.DeviceStatusManager.Unsubscribe | services/native/src/devicestatus_manager.cpp:451-479 | removes the callback, and the bundle with its last one |
| MetadataRounds.DeviceStatusManager.NotifyMetadata | services/native/src/devicestatus_manager.cpp:481-516 | opens a round exactly for a subscribed bundle: asks its subscribers for a screenshot, keeps a cached bundle name, starts the timer |
| MetadataRounds.DeviceStatusManager.GetBundleNameByCallback | services/native/src/devicestatus_manager.cpp:518-527 | consumes the cached name |
| MetadataRounds.DeviceStatusManager.SubmitMetadata | services/native/src/devicestatus_manager.cpp:560-593 | at most one answer, whose content depends on the cached and the link's bundle; succeeds exactly when both are found |
| MetadataRounds.DeviceStatusManager.TimerTaskChecks | services/native/src/devicestatus_manager.cpp:713-716 | the timer goes to sleep unless the open round is answered |
| MetadataRounds.DeviceStatusManager.TimerTaskSubmits | services/native/src/devicestatus_manager.cpp:716-717 | the timer submits the empty string to whichever round is open |
| MetadataRounds.DeviceStatusManager.OnRemoteDied | services/native/src/devicestatus_manager.cpp:59-92 | removes the callback everywhere, and as the round's listener |
| MetadataRounds.AnsweredAtMostOnce | services/native/src/devicestatus_manager.cpp:560-568 | in every interleaving each round gets at most one answer, and none before it is opened |
| MetadataRounds.TimerAnswers | services/native/src/devicestatus_manager.cpp:713-719 | left entirely alone, a round is answered by the two steps of its timer |
| MetadataRounds.TimerGuaranteesAnswer | services/native/src/devicestatus_manager.cpp:713-719 | a round left alone has exactly one answer once its timer is through, and only its own listener is answered |
| MetadataRounds.ListenerIsLastNamed | services/native/src/devicestatus_manager.cpp:481-516 | at any position of any run the one to be answered is the callback last named by an accepted round or a decode request, unless it died since |
| MetadataRounds.OwnListenerAnsweredIff | services/native/src/devicestatus_manager.cpp:560-593 | a round's answer goes to its own listener if and only if the last decode request since, if any, names it |
| MetadataRounds.SubscriptionIsHistory | services/native/src/devicestatus_manager.cpp:413-479 | at any position of any run the subscriptions are those made and neither taken back nor ended by death |
| MetadataRounds.DeathUnsubscribes | services/native/src/devicestatus_manager.cpp:67-81 | a callback that died listens to nothing, and nobody else is affected |
| MetadataRounds.OpensIffSomeoneListens | services/native/src/devicestatus_manager.cpp:487-506 | a round is opened exactly while somebody is subscribed to its bundle, and all who are get asked for a screenshot |
| MetadataRounds.SentIffBundleMatches | services/native/src/devicestatus_manager.cpp:571-591 | at any position of any run, a submission sends its text exactly when its link belongs to the bundle of the listener's first round since it was last answered |
| MetadataRounds.AnswersAreEarned | services/native/src/devicestatus_manager.cpp:560-593 | in every reachable state every nonempty answer was submitted in that round, for the bundle of the listener's first unanswered round |
| MetadataRounds.CurrentBundleDecidesIff | services/native/src/devicestatus_manager.cpp:508-511 | metadata for the current round's bundle is sent if and only if no other name is cached for the listener |
| MetadataRounds.OwnTimerAnswersIff | services/native/src/devicestatus_manager.cpp:713-719 | a timer's empty answer goes to its own round if and only if no round was opened since |
| MetadataRounds.StaleTimerAnswers | services/native/src/devicestatus_manager.cpp:713-719 | a run in which the timer of an answered round answers the next round |
| StreamServers.StreamServer.constructor | services/native/include/stream_server.h:82-85 | empty tables |
| StreamServers.StreamServer.GetClientPid | services/native/src/stream_server.cpp:67-74 | the session's process, or the sentinel 7 |
| StreamServers.StreamServer.GetSessionByPid | services/native/src/stream_server.cpp:288-296 | while the index agrees with the table, an indexed process's own session, descriptor 0 excepted; for any other process, what sits under the sentinel |
| StreamServers.StreamServer.AddSession | services/native/src/stream_server.cpp:298-322 | admits exactly sessions with nonnegative numbers while fewer than 100 are open |
| StreamServers.StreamServer.NotifySessionDeleted | services/native/src/stream_server.cpp:355-367 | calls and drops the process's callback |
| StreamServers.StreamServer.DelSession | services/native/src/stream_server.cpp:324-342 | drops index entry, callback and session |
| StreamServers.StreamServer.AddSessionDeletedCallback | services/native/src/stream_server.cpp:344-353 | keeps the first callback of a process |
| StreamServers.AddAgreesIff | services/native/src/stream_server.cpp:318-319 | adding keeps the index right if and only if no other process is indexed to the descriptor |
| StreamServers.DelAgreesIff | services/native/src/stream_server.cpp:332-340 | deleting keeps the index right if and only if the session is not indexed under a process number below 1 |
| StreamServers.IndexAgrees | services/native/src/stream_server.cpp:298-367 | in every run the index is right and injective, at most 100 sessions are open, and a registered callback fires exactly once unless it still waits |
| StreamServers.DeletionFires | services/native/src/stream_server.cpp:362-366 | deleting a live session calls the callback that waits for its process, and no other |
| StreamServers.LookupRightIff | services/native/src/stream_server.cpp:288-296 | in every reachable state, looking up an indexed process gives its own session if and only if that is not under descriptor 0 |
| StreamServers.LookupOwnIff | services/native/src/stream_server.cpp:58-65 | in every reachable state and for every process number, when the lookup finds its own session, another's, or none |
| StreamServers.EveryoneIndexedIff | services/native/src/stream_server.cpp:324-342 | a step keeps every live process indexed if and only if it deletes no descriptor whose process has another live session |
| Parcels.WriteAll | utils/common/include/devicestatus_common.h:46-52 | a run of write macros succeeds exactly when all values fit |
| DragDataPackers.PackUpShadowInfo | utils/common/src/drag_data_packer.cpp:284-306 | succeeds exactly when the shadow can be encoded and fits |
| DragDataPackers.PackUpShadows | utils/common/src/drag_data_packer.cpp:254-259 | succeeds exactly when all shadows can be encoded and fit |
| DragDataPackers.PackUpEntries | utils/common/src/drag_data_packer.cpp:343-346 | writes the map's entries in the order it is walked |
| DragDataPackers.PackUpSummary | utils/common/src/drag_data_packer.cpp:340-348 | writes the number of entries and then the entries |
| DragDataPackers.MarshalParts | utils/common/src/drag_data_packer.cpp:160-180 | everything but the delay flag, or failure |
| DragDataPackers.Marshalling | utils/common/src/drag_data_packer.cpp:157-186 | succeeds exactly when all but the delay flag can be packed; the flag is dropped silently when it does not fit |
| DragDataPackers.CutIsPrefix | utils/common/src/drag_data_packer.cpp:249-255 | the first three shadows travel |
| DragDataPackers.PacksIff | utils/common/src/drag_data_packer.cpp:237-306 | a record can be packed if and only if it has a shadow and each of its first three can be encoded |
| DragDataPackers.FieldsLayout | utils/common/src/drag_data_packer.cpp:164-176 | the plain fields on the wire, in their order |
| DragDataPackers.UnPackShadowInfo | utils/common/src/drag_data_packer.cpp:308-327 | reads one shadow off the parcel or fails |
| DragDataPackers.UnMarshalShadows | utils/common/src/drag_data_packer.cpp:263-282 | reads one to three shadows or fails |
| DragDataPackers.UnMarshalSummary | utils/common/src/drag_data_packer.cpp:350-365 | reads a map of at most 1024 entries, guarded by the readable bytes |
| DragDataPackers.UnMarshalFields | utils/common/src/drag_data_packer.cpp:195-207 | reads the plain fields in their order |
| DragDataPackers.UnMarshalling | utils/common/src/drag_data_packer.cpp:188-217 | reads a record off the parcel, or fails where a part fails |
| DragDataPackers.FieldsParsed | utils/common/src/drag_data_packer.cpp:195-207 | fields that are read pack to the very values they were read from |
| DragDataPackers.SummaryParsed | utils/common/src/drag_data_packer.cpp:350-365 | summaries that are read are at most 1024 pairs behind their count, and all of them |
| DragDataPackers.SummaryRoundTrip | utils/common/src/drag_data_packer.cpp:340-365 | the readable-bytes guard never rejects what was written; the limit of 1024 entries is exact |
| DragDataPackers.DragDataRoundTrip | utils/common/src/drag_data_packer.cpp:157-217 | what is packed is unpacked to the same record, cut to three shadows, consuming exactly what was written, if and only if there are at most 1024 summaries |
| DragDataPackers.DelayArrivesIff | utils/common/src/drag_data_packer.cpp:182-184 | within one device the delay flag arrives if and only if it fitted or was false, whatever else the parcel was filled with |
| WordLists.WordsProper | utils/common/src/util.cpp:127-154 | all words are nonempty and free of separators |
| WordLists.WordsSplit | utils/common/src/util.cpp:127-165 | a separator splits the list of words in two |
| WordLists.WordsConcat | utils/common/src/util.cpp:156-165 | the words put together are the text without its separators |
| StringSplitters.StringSplitByChar | utils/common/src/util.cpp:353-372 | returns the maximal separator-free runs |
| StringSplitters.FirstSeparator | utils/common/src/util.cpp:133-140 | the least position of any separator |
| StringSplitters.StringToken | utils/common/src/util.cpp:127-154 | takes the first run off the text, or reports that there is none |
| StringSplitters.StringSplitBySet | utils/common/src/util.cpp:156-165 | appends the maximal separator-free runs to the caller's list |
| StringSplitters.BothSplits | utils/common/src/util.cpp:353-372 | both splitters return the same list for every text and separator character |
| DeviceNames.EraseGap | tools/vdev/src/virtual_device_builder.cpp:116-118 | erases exactly the blanks at the position |
| DeviceNames.ScanWord | tools/vdev/src/virtual_device_builder.cpp:120-126 | finds the end of the word and of the blanks behind it |
| DeviceNames.PassWord | tools/vdev/src/virtual_device_builder.cpp:119-133 | one outer iteration keeps the normalised text |
| DeviceNames.ConcatenationName | tools/vdev/src/virtual_device_builder.cpp:113-134 | the in-place result is the words joined by underscores, for every text |
| DeviceNames.NormalisedIdempotent | tools/vdev/src/virtual_device_builder.cpp:113-134 | normalising again changes nothing, and no blank is left |
| DeviceNames.NoBlankIsLeft | tools/vdev/src/virtual_device_builder.cpp:113-134 | no blank and no null character is left in the name |

## Left out

- Null pointers: data is passed as sequences, so the branches that only reject a null argument do not exist here.
- The read and write counters of `StreamBuffer`, which only feed log lines; `Read(std::string &)` and `Clone`.
- StreamBuffers.StreamBuffer.SeekReadPos: positions are unbounded integers, so an offset near the int32 limit does not overflow.
- StreamBuffers.StreamBuffer.Write: `memcpy_sp` copies or refuses; that it clears the free space when it refuses is not modelled, as free space is never read.
- `StreamClient::SendMsg(const NetPacket &)`: the same three steps as the session's, proved there.
- Connection teardown in `OnEpollRecv` (`ReleaseSession`), epoll, sockets, pipes and sleeping: only the bytes, tokens and results they deliver appear.
- Floating point: distances are exact reals or are compared by their squares; the arc tangents of the posture algorithms are an arbitrary function of the sample.
- VirtualMice.VirtualMouse.Move: takes the exact length of the displacement as an argument, in place of `hypot`.
- Integer overflow of screen coordinates, and `VirtualMouse::MoveTo` and `MoveProcess`, which steer by feedback from the display.
- The lifetime of the promise after a timed-out synchronous post, shutdown of the worker and of the algorithm thread, and a failing `read` of the token pipe.
- Posture.Algorithm.ExecuteOperation: one class stands for the three algorithm classes, which differ only in their classification.
- Counting how often a posture algorithm is enabled, and starting and stopping the sensor itself.
- MetadataRounds.DeviceStatusManager.SubmitMetadata: the bundle lookup for a link is an argument.
- `UdsStop`.
- Parcels.WriteAll: the parcel is a list of typed values, so reading a value as another type of the same width fails here.
- DragDataPackers.Marshalling: the pixel map codec is arbitrary but lawful, summary counts are below 2^31, and the separately packed detailed summaries, summary format, material filter and animation type are not included.
- Characters outside the basic C locale in `isspace`, for which the source's call is undefined.
- The foreign-function layers, IPC stubs and proxies, dynamic algorithm loading, JSON configuration, permission tables and dump text: thin wrappers or foreign code.
