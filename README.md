# zephyr_io core, modelled in Dafny

zephyr_io is a set of Zephyr RTOS libraries for moving packets and settings
between the modules of a firmware, plus the Python harness and clients that
test them. This project models its core in Dafny and proves what that code
promises. The core has six parts.

- **Wire framing.** The 4-byte IoTSense header and the 14-byte sensor header
  are modelled on both sides. The C side encodes and validates them. The
  Python clients pack, unpack and reassemble them out of received bytes.
- **Settings and register tables.** These cover the settings table's areas
  and registers, the register-mapped settings registry, and the register
  mapper that puts 16-bit addresses over zbus channel messages. The
  samples' own tables and validators are included.
- **Fan-out engines.** Sources hand a reference-counted `net_buf` to every
  connected sink, directly or through a bounded queue. The model covers
  flow, the swift_io runtime connections, packet_io, the weave core and the
  weave packet filter, and the packet router's route table.
- **RPC and observables.** This part covers weave method calls, the weave
  messaging subsystem's contexts, queues and wiring, and both weave
  observable implementations.
- **Harness helpers.** The pytest plugins' fixture-string parsers, the URL
  and timeout rules, the UDP server state, the TCP retry loop and the
  `west flash` command builder.
- **Sample state machines.** The ping, LED and command handlers, the
  sensor RPC statistics, and the register-mapper device sample's sensor and
  motor rules.

Each Dafny module follows one source file or one small group of source files.

| module | models |
|---|---|
| Bytes, Errno, PyText | shared helpers: little-endian bytes, C truncating casts, Zephyr's error numbers, the Python string built-ins the clients use |
| NetBuf, NetState | Zephyr's `net_buf` as the samples use it: reference counts, data, user data and fragment chains, as values and as one mutable heap |
| RouterTcpTest | `swift_io/samples/router_sample/tests/test_router_tcp.py` |
| TcpClientDemo | `packet_io/samples/router_sample/tcp_client_demo.py` |
| SensorWire, SensorStream, FlowTcpClient, PacketRoutingConftest | the 14-byte header and the two Python sensor clients (`flow/samples/router_sample/tcp_client.py`, `samples/packet_routing/pytest/conftest.py`) |
| WeavePacket, WeaveProtocol, WeaveCore | `libs/weave/include/weave/packet.h`, `src/packet.c`, `libs/weave/samples/packet_routing/src/protocol.c`, `libs/weave/src/core.c` |
| IotsenseRouter, PacketRouter | `flow/samples/router_sample/src/protocols/iotsense_router.c`, `packet_io/samples/router_sample/src/framework/packet_router.c` |
| Flow, FlowRuntime, FlowProcessor, FlowValidator | `flow/subsys/flow/flow.c`, `flow_runtime.c` and the flow basic packet-routing sample |
| SwiftIoRuntime, PacketDefs, SwiftProcessor, SwiftValidator, SystemControl | `swift_io/subsys/swift_io/swift_io_runtime.c` and the swift_io samples |
| PacketIo, LedController | `packet_io/subsys/packet_io/packet_io.c` and the packet_io router sample's LED controller |
| CmdHandler | `samples/packet_routing/src/cmd_handler.c` |
| WeaveMethod, WeaveObservable, WeaveMessaging, WeaveWiring, SensorRpc | `libs/weave/src/method.c`, both `observable.c`, `weave/subsys/weave/weave_core.c`, the sensor RPC sample |
| SettingsTable, SettingsTableSample | `samples/settings_table/src` |
| SettingsRegisters, SettingsRegistersSample | `samples/settings_registers/src` and its motor group |
| RegisterMapper, DeviceConfig | `register_mapper/subsys/register_mapper/register_mapper.c` and the device_config sample |
| HarnessFixtures, HarnessUdp, HarnessTcp, HarnessHttp, HarnessFlash, ZephyrIoFixtures | the pytest harness plugins under `scripts/pylib` |

Code that changes state in place is modelled the same way. Objects whose
fields the C or Python updates become classes. Loops become methods with
invariants, proved against specification functions. Pure encoders, parsers
and checks become functions with lemmas. Kernel objects are abstracted:

- a `k_msgq` is a bounded FIFO;
- a `net_buf` is a heap entry with a reference count;
- a timeout is taken as `K_NO_WAIT`;
- pointers are identities.

## Model

| member | source | states |
|---|---|---|
| CmdHandler.StartSampling | samples/packet_routing/src/cmd_handler.c:47 | starting gives the sampling semaphore: the count rises by one up to its limit of 1 |
| CmdHandler.StopSampling | samples/packet_routing/src/cmd_handler.c:54 | stopping resets the sampling semaphore to 0 |
| CmdHandler.Give | samples/packet_routing/src/cmd_handler.c:47 | a give on a binary semaphore leaves it at its limit, whatever its count before |
| CmdHandler.Command | samples/packet_routing/src/cmd_handler.c:30-62 | handling a command keeps every uint32 counter within 32 bits |
| CmdHandler.EmptyIgnored | samples/packet_routing/src/cmd_handler.c:34-37 | the state is unchanged exactly when the buffer is empty (both directions) |
| CmdHandler.ExactlyOneKind | samples/packet_routing/src/cmd_handler.c:39-61 | a non-empty command bumps commands_processed (wrapping at 2^32) and exactly one of the start, stop and unknown counters, chosen by the first byte |
| CmdHandler.StartStopSwitch | samples/packet_routing/src/cmd_handler.c:42-61 | START leaves sampling on, STOP leaves it off, any other byte leaves the semaphore alone |
| CmdHandler.StopAfterStarts | samples/packet_routing/src/cmd_handler.c:43-55 | two STARTs and then one STOP leave sampling off |
| CmdHandler.OnlyFirstByte | samples/packet_routing/src/cmd_handler.c:39 | two commands whose first bytes agree have the same effect |
| CmdHandler.Commands.constructor | samples/packet_routing/src/cmd_handler.c:24-27 | all counters start at zero and sampling is off |
| CmdHandler.Commands.Handle | samples/packet_routing/src/cmd_handler.c:30-62 | the object's new state is Command of the old one, and the counters stay within 32 bits |
| DeviceConfig.Widths | register_mapper/samples/device_config/src/sensor_module.h:15-30 | one, two and four bytes hold 256, 2^16 and 2^32 values |
| DeviceConfig.EncodeStatus | register_mapper/samples/device_config/src/sensor_module.h:15-18 | the status message image has the channel's size |
| DeviceConfig.EncodeConfig | register_mapper/samples/device_config/src/sensor_module.h:21-24 | the config message image has the channel's size |
| DeviceConfig.EncodeCommand | register_mapper/samples/device_config/src/sensor_module.h:27-30 | the command message image has the channel's size |
| DeviceConfig.EncodeMotor | register_mapper/samples/device_config/src/motor_module.h:19-25 | the motor message image has the channel's size |
| DeviceConfig.RegisterMapOk | register_mapper/samples/device_config/src/register_map.c:40-70 | the map is in strictly increasing address order, every field lies inside its channel's message, and no two registers overlap |
| DeviceConfig.RegisterMapAccess | register_mapper/samples/device_config/src/register_map.c:40-70 | the control register cannot be read, the status and data registers cannot be written, and a write with another type tag is refused |
| DeviceConfig.SpliceMiddle | register_mapper/samples/device_config/src/register_map.c:58-62 | overwriting the middle part of a message replaces just that part |
| DeviceConfig.ReadMiddle | register_mapper/samples/device_config/src/register_map.c:58-62 | reading the middle part of a message decodes just that part |
| DeviceConfig.MotorParts | register_mapper/samples/device_config/src/motor_module.h:19-25 | the motor message is its five fields' bytes in declaration order |
| DeviceConfig.MotorDirectionWrite | register_mapper/samples/device_config/src/register_map.c:55-56 | a write through the direction register changes only the direction, cut to one byte |
| DeviceConfig.MotorSpeedWrite | register_mapper/samples/device_config/src/register_map.c:58-59 | a write through the speed register changes only the speed, cut to 16 bits |
| DeviceConfig.MotorAccelerationWrite | register_mapper/samples/device_config/src/register_map.c:61-62 | a write through the acceleration register stores its low 16 bits, read back as two's complement |
| DeviceConfig.SensorStatusRegistersRead | register_mapper/samples/device_config/src/register_map.c:40-66 | the sensor status and data registers read the status byte and the data word |
| DeviceConfig.MotorStatusRegistersRead | register_mapper/samples/device_config/src/register_map.c:43-47 | the motor status and current registers read the status byte and the current draw |
| DeviceConfig.ThresholdWrite | register_mapper/samples/device_config/src/register_map.c:51-52 | a write through the threshold register changes only the threshold, cut to 32 bits |
| DeviceConfig.ControlWrite | register_mapper/samples/device_config/src/register_map.c:69-70 | a write through the control register sets the control byte and keeps the reserved bytes |
| DeviceConfig.Sampled | register_mapper/samples/device_config/src/sensor_module.c:96-107 | a sample keeps the status well formed |
| DeviceConfig.Commanded | register_mapper/samples/device_config/src/sensor_module.c:145-162 | a command keeps the status well formed |
| DeviceConfig.SampledMeans | register_mapper/samples/device_config/src/sensor_module.c:96-107 | data is 10 more modulo 2^32, ALERT is set exactly when the new data passes a non-zero threshold, and other bits stay |
| DeviceConfig.Samples | register_mapper/samples/device_config/src/sensor_module.c:96-107 | repeated samples keep the status well formed |
| DeviceConfig.SamplesMean | register_mapper/samples/device_config/src/sensor_module.c:96-107 | after k samples data is 10k more modulo 2^32, non-ALERT bits stay, and ALERT reflects only the last comparison |
| DeviceConfig.ModAddStep | register_mapper/samples/device_config/src/sensor_module.c:96 | adding after a 32-bit wrap is the same as wrapping after adding |
| DeviceConfig.StartThenSample | register_mapper/samples/device_config/src/sensor_module.c:22-31 | from boot, START and k samples give data 10k, with ALERT exactly when 10k passed 2048 |
| DeviceConfig.CommandedMeans | register_mapper/samples/device_config/src/sensor_module.c:145-162 | RESET leaves READY with data 0; STOP clears RUNNING and data; START alone sets RUNNING; a byte with none of the bits changes nothing |
| DeviceConfig.SensorModule.constructor | register_mapper/samples/device_config/src/sensor_module.c:17-41 | the three sensor channels start at their initial messages with no notification sent |
| DeviceConfig.SensorModule.Sample | register_mapper/samples/device_config/src/sensor_module.c:67-115 | nothing changes unless the status reads, is RUNNING, the config reads and the status is claimed; then the status is sampled and notified exactly when its byte changed |
| DeviceConfig.SensorModule.UpdateStatus | register_mapper/samples/device_config/src/sensor_module.c:91-114 | the status becomes its sample and one notification goes out exactly when the status byte changed |
| DeviceConfig.SensorModule.ProcessCommand | register_mapper/samples/device_config/src/sensor_module.c:118-171 | the control byte is cleared when claimed; a non-zero one is applied to the claimed status and notified exactly when the byte changed |
| DeviceConfig.SensorModule.ProcessConfig | register_mapper/samples/device_config/src/sensor_module.c:174-185 | the config is only read, so nothing changes |
| DeviceConfig.Handled | register_mapper/samples/device_config/src/motor_module.c:44-62 | the motor handler keeps the motor message well formed |
| DeviceConfig.HandledMeans | register_mapper/samples/device_config/src/motor_module.c:44-62 | RUNNING with current speed/10 for a non-zero speed, IDLE with no current otherwise, the speed held at 5000 exactly under an alert with a higher speed, direction and acceleration untouched |
| DeviceConfig.HandledTwice | register_mapper/samples/device_config/src/motor_module.c:44-62 | the handler is idempotent exactly when it did not clamp the speed, since the current still reflects the unclamped speed |
| DeviceConfig.MotorModule.constructor | register_mapper/samples/device_config/src/motor_module.c:21-30 | the motor channel starts idle, forward, at speed 0, acceleration 100 and no current |
| DeviceConfig.MotorModule.Handle | register_mapper/samples/device_config/src/motor_module.c:33-63 | the motor message becomes what the handler rule gives, read sensor status or not |
| Flow.PacketIdOf | flow/subsys/flow/flow.c:103-106 | the id the filter compares is a single byte: FLOW_PACKET_ID_ANY cut to uint8_t, or the metadata's id |
| Flow.PacketIdSet | flow/include/zephyr_io/flow/flow.h:557-565 | flow_packet_id_set returns 0 exactly for a buffer whose user data holds two bytes, and otherwise -ENOBUFS with nothing written |
| Flow.PacketIdGet | flow/include/zephyr_io/flow/flow.h:577-589 | flow_packet_id_get: -EINVAL exactly for a missing buffer, with nothing written; -ENOBUFS and FLOW_PACKET_ID_ANY for a two-byte-short area; otherwise 0 and the stored id |
| Flow.PacketIdRoundTrip | flow/include/zephyr_io/flow/flow.h:557-589 | reading the id back after a successful set gives the id that was set |
| Flow.EventHandler | flow/subsys/flow/flow.c:59-92 | flow_event_handler keeps the engine well formed and touches no queue |
| Flow.DeliverRef | flow/subsys/flow/flow.c:94-149 | flow_sink_deliver_ref either leaves the buffers as they were or leaves the delivered buffer with one more reference |
| Flow.Deliver | flow/subsys/flow/flow.c:151-160 | flow_sink_deliver keeps the engine well formed |
| Flow.DeliverConsumes | flow/subsys/flow/flow.c:151-160 | flow_sink_deliver with no buffer is -EINVAL and changes nothing; otherwise it returns what flow_sink_deliver_ref returns, with the same queues, handler runs and drops, and the caller's reference passes to the queued event when one was queued and is released otherwise |
| Flow.SendFrom | flow/subsys/flow/flow.c:176-189 | the send loop counts at most one delivery per connection and never frees the sent buffer |
| Flow.SendRef | flow/subsys/flow/flow.c:199-207 | flow_source_send_ref keeps the engine well formed |
| Flow.SendRefAccounts | flow/subsys/flow/flow.c:199-207 | flow_source_send_ref is -EINVAL with nothing changed for a missing source or buffer; otherwise it is the inner send, returning the handler runs plus events queued, with one new reference per queued event |
| Flow.Send | flow/subsys/flow/flow.c:209-236 | flow_source_send keeps the engine well formed |
| Flow.EventProcess | flow/subsys/flow/flow.c:289-305 | flow_event_process keeps the engine well formed and the number of queues |
| Flow.FlowBufPool.constructor | flow/subsys/flow/flow.c:35 | a pool's counter starts at 0 |
| Flow.BufAlloc | flow/subsys/flow/flow.c:18-43 | NULL exactly for no pool or an exhausted one, changing nothing; otherwise the counter advances |
| Flow.BufAllocWithId | flow/subsys/flow/flow.c:45-54 | an allocated buffer with an id is live in the heap |
| Flow.EventHandlerReleases | flow/subsys/flow/flow.c:59-92 | the handler helper succeeds exactly for a live buffer and a sink with a handler, running the handler once; the reference that came with the buffer is released in every case but a dead buffer |
| Flow.DeliverRefRejects | flow/subsys/flow/flow.c:98-111 | -EINVAL for no sink, no buffer or no handler, -ENOTSUP for a packet the filter refuses; neither takes a reference nor changes anything else |
| Flow.DeliverRefImmediate | flow/subsys/flow/flow.c:113-118 | an immediate sink runs its handler once on the buffer, and the caller's reference count ends as it was |
| Flow.DeliverRefQueued | flow/subsys/flow/flow.c:119-142 | -ENOSYS without a queue and -ENOBUFS with a drop recorded on a full queue, the reference given back in both cases; otherwise the event is appended and the buffer holds one reference more |
| Flow.DeliverRefAccounts | flow/subsys/flow/flow.c:94-149 | every successful delivery either ran the handler or queued one event, and the buffer gains exactly one reference per queued event |
| Flow.AccountsCombine | flow/subsys/flow/flow.c:176-189 | the accounting of two stretches of the send loop adds up |
| Flow.SendFromAccounts | flow/subsys/flow/flow.c:162-198 | _flow_source_send returns the number of handler runs plus events queued, and the buffer gains one reference per queued event while every other buffer is untouched |
| Flow.SendConsumes | flow/subsys/flow/flow.c:209-236 | flow_source_send refuses a missing source or buffer and a dead buffer with -EINVAL, changing nothing; otherwise it returns the deliveries and consumes exactly the caller's one reference |
| Flow.QueuedRoundTrip | flow/subsys/flow/flow.c:119-142 | delivering to a queued sink and then processing its queue runs the handler once on the buffer and leaves every reference count as it was |
| Flow.EventProcessOldest | flow/subsys/flow/flow.c:289-305 | -EINVAL without a queue, -EAGAIN with nothing changed on an empty one; otherwise the oldest event leaves the queue and is handled |
| Flow.BufAllocMeta | flow/subsys/flow/flow.c:30-40 | flow_buf_alloc's record holds id ANY, flags 0 and the counter before the increment cut to 16 bits, and the counter advances modulo 2^32 |
| Flow.BufAllocWithIdMeta | flow/subsys/flow/flow.c:45-54 | the record carries the requested id and otherwise flow_buf_alloc's record |
| Flow.SendFromUnfold | flow/subsys/flow/flow.c:176-189 | one step of the walk: a connection without a sink is skipped, otherwise delivered to |
| Flow.SendFromImmediate | flow/subsys/flow/flow.c:176-189 | a send to immediate sinks only queues nothing and leaves every reference count as it was |
| Flow.FlowSource.constructor | flow/include/zephyr_io/flow/flow.h:212-213 | a source starts with no connection and zero statistics |
| Flow.FlowEngine.constructor | flow/include/zephyr_io/flow/flow.h:327-332 | the engine starts with no buffers, no handler runs, nothing dropped, and one empty event queue of each FLOW_EVENT_QUEUE_DEFINE size |
| Flow.StaticConnsFor | flow/subsys/flow/flow.c:314-329 | the connections flow_init appends to one source are at most as many as the static table holds, and each has a static node |
| Flow.StaticConnsForMembers | flow/subsys/flow/flow.c:314-329 | a connection is wired to a source exactly when some static entry names that source and a sink, with a missing source or sink skipped |
| Flow.FlowInit | flow/subsys/flow/flow.c:307-333 | flow_init returns 0 and appends to each source, after its existing connections and in table order, the static connections naming it, leaving the statistics alone |
| Flow.FlowEngine.BufAllocFrom | flow/subsys/flow/flow.c:18-43 | flow_buf_alloc in place, as BufAlloc; a NULL pool gives NULL and changes nothing |
| Flow.FlowEngine.SinkDeliverRef | flow/subsys/flow/flow.c:94-149 | flow_sink_deliver_ref in place, as DeliverRef |
| Flow.FlowEngine.SinkDeliver | flow/subsys/flow/flow.c:151-160 | flow_sink_deliver in place, as Deliver |
| Flow.FlowEngine.SourceSendInner | flow/subsys/flow/flow.c:162-198 | _flow_source_send in place: the connection list walked in order and the send and delivery statistics bumped |
| Flow.FlowEngine.SourceSendRef | flow/subsys/flow/flow.c:199-207 | flow_source_send_ref: -EINVAL with nothing changed for a missing source or buffer, otherwise the inner send |
| Flow.FlowEngine.SourceSend | flow/subsys/flow/flow.c:209-236 | flow_source_send in place, as Send |
| Flow.FlowEngine.ProcessEvent | flow/subsys/flow/flow.c:289-305 | flow_event_process in place, as EventProcess |
| FlowProcessor.EncodeHeader | flow/samples/basic_packet_routing/src/processor.c:18-21 | the packed header is four bytes |
| FlowProcessor.DecodeHeader | flow/samples/basic_packet_routing/src/processor.c:101 | the header read from a buffer's first four bytes has two uint16 fields |
| FlowProcessor.HeaderRoundTrip | flow/samples/basic_packet_routing/src/processor.c:18-21 | decoding an encoded header, whatever follows it, gives the header back |
| FlowProcessor.HeaderBytesRoundTrip | flow/samples/basic_packet_routing/src/processor.c:18-21 | encoding a decoded header gives back the four bytes it was read from |
| FlowProcessor.OutboundAsWritten | flow/samples/basic_packet_routing/src/processor.c:43-86 | outbound_handler as written keeps the engine well formed |
| FlowProcessor.Outbound | flow/samples/basic_packet_routing/src/processor.c:43-86 | the corrected outbound handler keeps the engine well formed |
| FlowProcessor.OutboundHeader | flow/samples/basic_packet_routing/src/processor.c:58-71 | the header carries the payload's packet id and, whenever the chain's length fits in 16 bits, that length |
| FlowProcessor.AllocKeepsPayload | flow/samples/basic_packet_routing/src/processor.c:49 | allocating the header buffer leaves the payload's chain, length and id as they were |
| FlowProcessor.OutboundOutcome | flow/samples/basic_packet_routing/src/processor.c:65-85 | on a payload with a packet id, the outbound source is given the header buffer, whose chain is the header with that id and length followed by the payload chain as it was |
| FlowProcessor.OutboundBalanced | flow/samples/basic_packet_routing/src/processor.c:43-86 | with immediate outbound sinks, the corrected handler leaves every buffer as it found it on every path |
| FlowProcessor.PrependedRelease | flow/samples/basic_packet_routing/src/processor.c:69-85 | dropping the one reference of the prepended header frees it and gives the payload its reference back |
| FlowProcessor.OutboundAsWrittenLeaks | flow/samples/basic_packet_routing/src/processor.c:59-63 | a payload without room for a packet id leaves, as written, a header buffer with one reference that nothing points to |
| FlowProcessor.OutboundNoIdReleases | flow/samples/basic_packet_routing/src/processor.c:59-63 | through the corrected handler, the same payload frees the header buffer and changes nothing else |
| FlowProcessor.Stamp | flow/samples/basic_packet_routing/src/processor.c:109-116 | stamping the payload fragment keeps the heap well formed and every buffer live |
| FlowProcessor.InboundAsWritten | flow/samples/basic_packet_routing/src/processor.c:89-121 | inbound_handler as written keeps the engine well formed |
| FlowProcessor.Inbound | flow/samples/basic_packet_routing/src/processor.c:89-121 | the corrected inbound handler keeps the engine well formed |
| FlowProcessor.InboundOutcome | flow/samples/basic_packet_routing/src/processor.c:95-120 | a buffer shorter than the header, or without a payload fragment, is ignored; otherwise only the first fragment goes on, with its data, references and links as they were and the header's packet id in its user data when it has room |
| FlowProcessor.OutboundInboundRoundTrip | flow/samples/basic_packet_routing/src/processor.c:43-121 | the chain the outbound handler builds, echoed back unchanged, is taken apart by the inbound handler: the payload goes on by itself, unchanged |
| FlowProcessor.PrependedStamp | flow/samples/basic_packet_routing/src/processor.c:69-76 | the prepended header leads to the payload, and restamping the payload with the header's id changes nothing |
| FlowProcessor.InboundExtraRelease | flow/samples/basic_packet_routing/src/processor.c:118-120 | the as-written and corrected inbound handlers differ by exactly one release of the payload fragment per forwarded packet |
| FlowProcessor.InboundAsWrittenUseAfterFree | flow/samples/basic_packet_routing/src/processor.c:118-120 | a chain whose payload is held only by the chain, forwarded to immediate validators: as written, the send frees the payload while the header still points to it |
| FlowProcessor.InboundReleasedOnce | flow/samples/basic_packet_routing/src/processor.c:118-120 | through the corrected handler, the event's release frees header and payload, each once |
| FlowProcessor.Processor.constructor | flow/samples/basic_packet_routing/src/processor.c:34-41 | the processor over its engine and two sources |
| FlowProcessor.Processor.OutboundHandler | flow/samples/basic_packet_routing/src/processor.c:43-86 | the outbound sink's handler in place, as the corrected Outbound |
| FlowProcessor.Processor.InboundHandler | flow/samples/basic_packet_routing/src/processor.c:89-121 | the inbound sink's handler in place, as the corrected Inbound |
| FlowRuntime.InUseCount | flow/subsys/flow/flow_runtime.c:17-21 | the number of slots in use never exceeds the pool size |
| FlowRuntime.AddScan | flow/subsys/flow/flow_runtime.c:37-46 | the duplicate scan returns 0 exactly when no listed connection is the same node or targets the same sink; -EBUSY only with the same node listed, -EALREADY only with the same sink listed |
| FlowRuntime.NodeIndex | flow/subsys/flow/flow_runtime.c:66 | the first position of a node, found exactly when the node is listed |
| FlowRuntime.RemoveNode | flow/subsys/flow/flow_runtime.c:66 | sys_slist_find_and_remove fails exactly when the node is not listed, and otherwise removes one entry |
| FlowRuntime.FindPair | flow/subsys/flow/flow_runtime.c:89-95 | the first in-use slot holding the pair, found exactly when one exists |
| FlowRuntime.FirstFree | flow/subsys/flow/flow_runtime.c:98-106 | the first slot not in use, found exactly when one exists |
| FlowRuntime.Connect | flow/subsys/flow/flow_runtime.c:77-126 | flow_runtime_connect never changes the pool's size |
| FlowRuntime.Disconnect | flow/subsys/flow/flow_runtime.c:128-162 | flow_runtime_disconnect never changes the pool's size |
| FlowRuntime.InUseCountUpdate | flow/subsys/flow/flow_runtime.c:101 | changing one slot changes the in-use count by exactly that slot's flag change |
| FlowRuntime.AddScanOrder | flow/subsys/flow/flow_runtime.c:37-46 | the scan reports the first duplicate it meets: -EBUSY when that entry is the same node, -EALREADY when it only targets the same sink |
| FlowRuntime.AddThenRemove | flow/subsys/flow/flow_runtime.c:25-75 | adding a connection and removing its node again restores the source's list |
| FlowRuntime.ConnectErrors | flow/subsys/flow/flow_runtime.c:82-114 | -EINVAL for a missing source or sink, -EALREADY for a pair already held, -ENOMEM with every slot in use, each leaving the pool and the list as they were |
| FlowRuntime.ConnectClaims | flow/subsys/flow/flow_runtime.c:98-125 | a successful connect claims exactly the first free slot and appends its connection to the source's list; a failed list add leaves the in-use count and the list as they were |
| FlowRuntime.ConnectKeepsUnique | flow/subsys/flow/flow_runtime.c:88-106 | connect keeps at most one in-use slot per (source, sink) pair |
| FlowRuntime.DisconnectFrees | flow/subsys/flow/flow_runtime.c:128-162 | -ENOENT exactly when no in-use slot holds the pair; a success frees exactly that slot and unlinks its node |
| FlowRuntime.ConnectThenDisconnect | flow/subsys/flow/flow_runtime.c:77-162 | connecting a new pair and disconnecting it again gives back the source's list and every slot's in-use flag |
| FlowRuntime.FindPairFirst | flow/subsys/flow/flow_runtime.c:89-95 | the search stops at the first slot holding the pair |
| FlowRuntime.FirstFreeFirst | flow/subsys/flow/flow_runtime.c:98-106 | the search claims the first free slot |
| FlowRuntime.NodeIndexFirst | flow/subsys/flow/flow_runtime.c:66 | the removal finds the first occurrence of the node |
| FlowRuntime.RuntimePool.constructor | flow/subsys/flow/flow_runtime.c:21 | a fresh pool of the configured size with every slot free |
| FlowRuntime.RuntimePool.AddInternalTo | flow/subsys/flow/flow_runtime.c:25-53 | flow_connection_add_internal in place on the source's list |
| FlowRuntime.RuntimePool.RemoveInternalFrom | flow/subsys/flow/flow_runtime.c:56-75 | flow_connection_remove_internal in place on the source's list |
| FlowRuntime.RuntimePool.FindPairIn | flow/subsys/flow/flow_runtime.c:89-95 | the array scan finds what FindPair specifies |
| FlowRuntime.RuntimePool.RuntimeConnect | flow/subsys/flow/flow_runtime.c:77-126 | flow_runtime_connect on the slot array in place, as Connect; a NULL source gives -EINVAL and changes nothing |
| FlowRuntime.RuntimePool.RuntimeDisconnect | flow/subsys/flow/flow_runtime.c:128-162 | flow_runtime_disconnect on the slot array in place, as Disconnect; a NULL source gives -EINVAL and changes nothing |
| FlowRuntime.ConnectBesideStatic | flow/subsys/flow/flow_runtime.c:37-46 | the `existing == conn` test compares nodes, and a pool slot's node is never a static connection's, so beside static connections to other sinks a connect with a free slot succeeds and appends the slot's node |
| FlowRuntime.StaticThenConnect | flow/subsys/flow/flow_runtime.c:77-126 | a source wired at boot to one sink by a static entry is then connected at run time to another sink in pool slot 0, after the static connection |
| FlowTcpClient.BytesOf | flow/samples/router_sample/tcp_client.py:116 | every packet received adds at least its 14 header bytes to bytes_received |
| FlowTcpClient.BytesOfAppend | flow/samples/router_sample/tcp_client.py:116 | the byte count of two runs of packets is the sum of theirs |
| FlowTcpClient.SampleClient.constructor | flow/samples/router_sample/tcp_client.py:45-52 | no socket, not connected, both counters 0 |
| FlowTcpClient.SampleClient.Connect | flow/samples/router_sample/tcp_client.py:54-60 | once the socket is open the client holds it and is connected |
| FlowTcpClient.SampleClient.Disconnect | flow/samples/router_sample/tcp_client.py:66-71 | the client drops its socket and is no longer connected |
| FlowTcpClient.SampleClient.SendCommand | flow/samples/router_sample/tcp_client.py:73-83 | True exactly when there is a socket and cmd is a byte (both directions); then exactly that byte is sent, otherwise nothing |
| FlowTcpClient.SampleClient.StartSampling | flow/samples/router_sample/tcp_client.py:85-87 | sends CMD_START_SAMPLING, True exactly when there is a socket |
| FlowTcpClient.SampleClient.StopSampling | flow/samples/router_sample/tcp_client.py:89-91 | sends CMD_STOP_SAMPLING, True exactly when there is a socket |
| FlowTcpClient.SampleClient.RecvExact | flow/samples/router_sample/tcp_client.py:170-181 | the loop returns and consumes what ExactRead says |
| FlowTcpClient.SampleClient.ReceivePacket | flow/samples/router_sample/tcp_client.py:93-131 | None without a socket; otherwise ReadPacket's result, counting one packet and its 14 + content_length bytes on success and nothing on failure |
| FlowTcpClient.SampleClient.ReceivePackets | flow/samples/router_sample/tcp_client.py:133-155 | the packets ReadPackets gives, with packet_count and bytes_received raised by exactly those packets |
| FlowTcpClient.SampleClient.ReceiveAll | flow/samples/router_sample/tcp_client.py:145-149 | the for loop over an open socket returns ReadPackets' packets and counts them |
| FlowTcpClient.SampleClient.ReceiveStep | flow/samples/router_sample/tcp_client.py:146-149 | one turn of the loop keeps its invariant, or ends it with exactly what ReadPackets returns |
| FlowValidator.Step | flow/samples/basic_packet_routing/src/validator.c:60-109 | one call keeps validated and failed within 32 bits |
| FlowValidator.WrongSinkIgnored | flow/samples/basic_packet_routing/src/validator.c:66-70 | a call on a sink other than the context's own changes nothing |
| FlowValidator.AcceptedCountsOnce | flow/samples/basic_packet_routing/src/validator.c:73-108 | an accepted call clears first_packet and bumps validated exactly when the chain length is the expected size and the first fragment is all pattern bytes, failed otherwise (both directions) |
| FlowValidator.CountsAddUp | flow/samples/basic_packet_routing/src/validator.c:100-108 | while nothing wraps, every call on the right sink adds exactly one to validated + failed |
| FlowValidator.SensorPacketsValidate | flow/samples/basic_packet_routing/src/validator.c:38-50 | a sensor's packet of its size filled with its pattern is validated, and one wrong byte fails it |
| FlowValidator.StampRoutes | flow/samples/basic_packet_routing/src/validator.c:22-23 | a buffer stamped with a sensor's id passes that sensor's routed sink filter and is refused by the other's |
| FlowValidator.ValidatorCtx.constructor | flow/samples/basic_packet_routing/src/validator.c:38-50 | a context starts with zero counts and first_packet set |
| FlowValidator.ValidatorCtx.Handle | flow/samples/basic_packet_routing/src/validator.c:60-109 | the byte loop over the first fragment and the whole chain's length give the counters Step computes |
| HarnessFlash.FileArgs | scripts/pylib/pytest-test-harness/src/test_harness/fixtures/flash.py:77-91 | the file arguments name the binary as their second element |
| HarnessFlash.RunnerBoardIdArgs | scripts/pylib/pytest-test-harness/src/test_harness/fixtures/flash.py:20-46 | the board-id arguments of the runner table |
| HarnessFlash.ExtendFileArgs | scripts/pylib/pytest-test-harness/src/test_harness/fixtures/flash.py:77-91 | the suffix branch appends exactly the file arguments |
| HarnessFlash.BuildFlashCommand | scripts/pylib/pytest-test-harness/src/test_harness/fixtures/flash.py:49-97 | _build_flash_command returns the command FlashCommand describes, RuntimeError without west |
| HarnessFlash.RunnerExtraArgs | scripts/pylib/pytest-test-harness/src/test_harness/fixtures/flash.py:68-75 | the extra arguments start with the board id for a named runner, then the runner parameters |
| HarnessFlash.FlashCommandFrom | scripts/pylib/pytest-test-harness/src/test_harness/fixtures/flash.py:62-97 | the command is its head, the runner option, then "--" and the extra arguments when there are any |
| HarnessFlash.BoardIdArgsShape | scripts/pylib/pytest-test-harness/src/test_harness/fixtures/flash.py:20-46 | no board-id arguments without an id or for a runner outside the table; otherwise one or two arguments, the last ending with the id |
| HarnessFlash.FlashCommandFailsOnlyWithoutWest | scripts/pylib/pytest-test-harness/src/test_harness/fixtures/flash.py:56-58 | the builder fails exactly when west is not found (both directions), with that message |
| HarnessFlash.FlashCommandShape | scripts/pylib/pytest-test-harness/src/test_harness/fixtures/flash.py:60-97 | west flash --skip-rebuild --build-dir (override or device's), --runner exactly when one is set, then "--" and the never-empty extra arguments |
| HarnessFlash.CommandLayout | scripts/pylib/pytest-test-harness/src/test_harness/fixtures/flash.py:93-95 | where head, runner option, "--" and extra arguments sit in the command |
| HarnessFlash.ExtraArgsOrder | scripts/pylib/pytest-test-harness/src/test_harness/fixtures/flash.py:68-91 | board-id arguments only with a runner, then runner parameters, then file arguments |
| HarnessFlash.FileArgsKinds | scripts/pylib/pytest-test-harness/src/test_harness/fixtures/flash.py:77-91 | .hex and .elf name the file and ignore the offset; any other suffix is a binary with --load-addr exactly when an offset is given, an int one in hex |
| HarnessHttp.BaseUrl | scripts/pylib/pytest-test-harness/src/test_harness/fixtures/http.py:31-33 | the base URL is the scheme, "://", the host, ":" and the port |
| HarnessHttp.HttpConfigFor | scripts/pylib/pytest-test-harness/src/test_harness/fixtures/http.py:237-246 | the http_config fixture is the parsed entry, or http://127.0.0.1:8080 when there is none |
| HarnessHttp.HttpClient.constructor | scripts/pylib/pytest-test-harness/src/test_harness/fixtures/http.py:65-68 | the client keeps the base URL without its trailing slashes, and the timeout |
| HarnessHttp.HttpClientFor | scripts/pylib/pytest-test-harness/src/test_harness/fixtures/http.py:249-261 | the fixture's client is on the configuration's base URL, with the marker's timeout, else --http-timeout, else 10 seconds |
| HarnessHttp.FromFixtureParts | scripts/pylib/pytest-test-harness/src/test_harness/fixtures/http.py:43-46 | from_fixture on a string of three parts whose third is an int |
| HarnessHttp.FromFixtureRoundTrip | scripts/pylib/pytest-test-harness/src/test_harness/fixtures/http.py:36-46 | scheme:host:port parses back to that scheme, host and port |
| HarnessHttp.ParseHttpFixtureFirst | scripts/pylib/pytest-test-harness/src/test_harness/fixtures/http.py:49-59 | parse_http_fixture returns the first http: or https: entry that parses, and a value exactly when there is one |
| HarnessHttp.UrlJoin | scripts/pylib/pytest-test-harness/src/test_harness/fixtures/http.py:78-82 | a request URL is the base URL, exactly one '/', then the path without its leading '/' |
| HarnessHttp.TrailingSlashesIgnored | scripts/pylib/pytest-test-harness/src/test_harness/fixtures/http.py:66 | a base URL with trailing slashes gives the client the same base URL as one without |
| HarnessHttp.BaseUrlKept | scripts/pylib/pytest-test-harness/src/test_harness/fixtures/http.py:261 | a configuration's base URL passes rstrip('/') unchanged |
| HarnessHttp.TimeoutFallback | scripts/pylib/pytest-test-harness/src/test_harness/fixtures/http.py:98 | a per-request timeout of None or 0 falls back to the client's; any other wins |
| HarnessHttp.FromFixture | scripts/pylib/pytest-test-harness/src/test_harness/fixtures/http.py:36-46 | ValueError exactly when the string has fewer than three ':' parts or the third is not an int; otherwise the scheme, host and port are the first three parts |
| HarnessHttp.IsHttp | scripts/pylib/pytest-test-harness/src/test_harness/fixtures/http.py:54 | every http: entry is admitted, and no tcp: or udp: entry is |
| HarnessHttp.ParseHttpFixture | scripts/pylib/pytest-test-harness/src/test_harness/fixtures/http.py:49-59 | a configuration found comes from some http: or https: entry of the list that parses to it |
| HarnessHttp.RequestTimeout | scripts/pylib/pytest-test-harness/src/test_harness/fixtures/http.py:98 | the timeout used is the request's own or the client's, and 0 only when the client's is 0 |
| HarnessHttp.HttpClient.Url | scripts/pylib/pytest-test-harness/src/test_harness/fixtures/http.py:78-82 | the URL is the base URL, one '/', then the path with at most one leading '/' removed |
| HarnessHttp.HttpClient.Timeout | scripts/pylib/pytest-test-harness/src/test_harness/fixtures/http.py:98 | a request's timeout is the client's timeout or the one passed |
| HarnessTcp.TcpConfigFor | scripts/pylib/pytest-test-harness/src/test_harness/fixtures/tcp.py:56-65 | the tcp_config fixture is the parsed entry, or 127.0.0.1:4242 when there is none |
| HarnessTcp.FromFixtureParts | scripts/pylib/pytest-test-harness/src/test_harness/fixtures/tcp.py:37-40 | from_fixture on a string of three parts whose third is an int |
| HarnessTcp.FromFixtureRoundTrip | scripts/pylib/pytest-test-harness/src/test_harness/fixtures/tcp.py:30-40 | tcp:ip:port parses back to that ip and port |
| HarnessTcp.FromFixtureNeedsPort | scripts/pylib/pytest-test-harness/src/test_harness/fixtures/tcp.py:38-39 | tcp:ip without a port raises ValueError |
| HarnessTcp.ParseTcpFixtureFirst | scripts/pylib/pytest-test-harness/src/test_harness/fixtures/tcp.py:43-53 | parse_tcp_fixture returns the first tcp: entry that parses, and a value exactly when there is one |
| HarnessTcp.Connect | scripts/pylib/pytest-test-harness/src/test_harness/fixtures/tcp.py:91-107 | connected exactly when one of the ten tries succeeds (both directions), on the first that does, after one pause per failed try; otherwise ConnectionError after ten pauses |
| HarnessTcp.FromFixture | scripts/pylib/pytest-test-harness/src/test_harness/fixtures/tcp.py:30-40 | ValueError exactly when the string has fewer than three ':' parts or the third is not an int; otherwise the ip and port are the second and third parts |
| HarnessTcp.ParseTcpFixture | scripts/pylib/pytest-test-harness/src/test_harness/fixtures/tcp.py:43-53 | a configuration found comes from some tcp: entry of the list that parses to it |
| HarnessFixtures.FirstParsedSpec | scripts/pylib/pytest-test-harness/src/test_harness/fixtures/udp.py:46-56 | the fixture search finds something exactly when some admitted entry parses, and then it is the first such entry's parse; malformed entries are passed over |
| HarnessFixtures.TimeoutPriority | scripts/pylib/pytest-test-harness/src/test_harness/fixtures/tcp.py:83-87 | a marker argument beats the option, the option beats the default 10.0, and a marker without arguments counts as none |
| HarnessUdp.FromFixtureRoundTrip | scripts/pylib/pytest-test-harness/src/test_harness/fixtures/udp.py:29-43 | udp:P:B parses to port P and bind address B |
| HarnessUdp.FromFixtureDefaultBind | scripts/pylib/pytest-test-harness/src/test_harness/fixtures/udp.py:42 | udp:P parses to port P on 0.0.0.0, which differs from the dataclass default 127.0.0.1 |
| HarnessUdp.FromFixtureParts | scripts/pylib/pytest-test-harness/src/test_harness/fixtures/udp.py:38-43 | from_fixture on a string of two or three parts whose second is an int |
| HarnessUdp.FromFixtureRejects | scripts/pylib/pytest-test-harness/src/test_harness/fixtures/udp.py:39-41 | udp and udp: raise ValueError |
| HarnessUdp.ParseUdpFixtureFirst | scripts/pylib/pytest-test-harness/src/test_harness/fixtures/udp.py:46-56 | parse_udp_fixture returns the first udp: entry that parses, and a value exactly when there is one |
| HarnessUdp.Received | scripts/pylib/pytest-test-harness/src/test_harness/fixtures/udp.py:136 | recvfrom(bufsize) gives a prefix of at most bufsize bytes of the datagram, all of it when it fits, with its sender |
| HarnessUdp.UdpServer.constructor | scripts/pylib/pytest-test-harness/src/test_harness/fixtures/udp.py:77-87 | a new server has its port, bind address and buffer size, no socket and no last sender |
| HarnessUdp.UdpServer.Start | scripts/pylib/pytest-test-harness/src/test_harness/fixtures/udp.py:102-115 | start does nothing on a started server; otherwise it opens and takes the bound port when port 0 was asked for |
| HarnessUdp.UdpServer.Stop | scripts/pylib/pytest-test-harness/src/test_harness/fixtures/udp.py:117-122 | stop closes the socket and drops what it held |
| HarnessUdp.UdpServer.RecvFrom | scripts/pylib/pytest-test-harness/src/test_harness/fixtures/udp.py:129-141 | RuntimeError when not started, TimeoutError with nothing waiting; otherwise the oldest datagram, whose sender becomes the last sender |
| HarnessUdp.UdpServer.Recv | scripts/pylib/pytest-test-harness/src/test_harness/fixtures/udp.py:124-127 | the data of recv_from's datagram, with the same errors |
| HarnessUdp.UdpServer.SendTo | scripts/pylib/pytest-test-harness/src/test_harness/fixtures/udp.py:143-154 | RuntimeError when not started or with no destination; otherwise the datagram goes to the given address, else the last sender, and its length is returned |
| HarnessUdp.UdpServer.Reply | scripts/pylib/pytest-test-harness/src/test_harness/fixtures/udp.py:156-158 | a datagram to the last sender, with send_to's errors |
| HarnessUdp.UdpServer.Clear | scripts/pylib/pytest-test-harness/src/test_harness/fixtures/udp.py:160-176 | 0 on a stopped server; otherwise every waiting datagram is discarded and their number returned |
| HarnessFixtures.FirstParsed | scripts/pylib/pytest-test-harness/src/test_harness/fixtures/udp.py:50-55 | the search loop returns only the parse of an entry it admits |
| HarnessFixtures.FixtureTimeout | scripts/pylib/pytest-test-harness/src/test_harness/fixtures/tcp.py:83-87 | the timeout is the marker's first argument, the option or 10.0, and 10.0 when there is neither a marker argument nor an option |
| HarnessUdp.FromFixture | scripts/pylib/pytest-test-harness/src/test_harness/fixtures/udp.py:29-43 | ValueError exactly when the string has fewer than two ':' parts or the second is not an int; otherwise the port is the second part and the bind address the third, or 0.0.0.0 |
| HarnessUdp.ParseUdpFixture | scripts/pylib/pytest-test-harness/src/test_harness/fixtures/udp.py:46-56 | a configuration found comes from some udp: entry of the list that parses to it |
| HarnessUdp.UdpConfigFor | scripts/pylib/pytest-test-harness/src/test_harness/fixtures/udp.py:187-195 | the udp_config fixture is the parsed entry, or the dataclass default when there is none |
| IotsenseRouter.EncodeHeader | flow/samples/router_sample/src/protocols/iotsense_router.c:82-86 | the 4-byte header starts with the version and the packet id |
| IotsenseRouter.DecodeHeader | flow/samples/router_sample/src/protocols/iotsense_router.c:33-39 | the header read from a buffer takes its version and id from the first two bytes and a uint16 payload length |
| IotsenseRouter.HeaderRoundTrip | flow/samples/router_sample/src/protocols/iotsense_router.c:82-86 | decoding an encoded header, whatever follows it, gives the header back |
| IotsenseRouter.HeaderBytesRoundTrip | flow/samples/router_sample/src/protocols/iotsense_router.c:82-86 | encoding a decoded header gives back the four bytes it was read from |
| IotsenseRouter.GetPacketId | flow/samples/router_sample/src/protocols/iotsense_router.c:27-40 | iotsense_get_packet_id always yields a byte-sized id |
| IotsenseRouter.ValidateHeader | flow/samples/router_sample/src/protocols/iotsense_router.c:42-67 | iotsense_validate_header answers 0, -EINVAL, -EPROTONOSUPPORT or -EMSGSIZE |
| IotsenseRouter.ValidateHeaderAccepts | flow/samples/router_sample/src/protocols/iotsense_router.c:42-67 | a header is accepted exactly when the buffer is the header plus payload_len bytes, with version 0x01 and a valid id: the uint16 sum never lets a wrong length through |
| IotsenseRouter.ValidateHeaderOrder | flow/samples/router_sample/src/protocols/iotsense_router.c:47-64 | the checks fail in the source's order: length, version, size, id |
| IotsenseRouter.LengthWraps | flow/samples/router_sample/src/protocols/iotsense_router.c:57 | a header-plus-payload sum past the uint16 range wraps below the header size |
| IotsenseRouter.ValidatedPacketId | flow/samples/router_sample/src/protocols/iotsense_router.c:116-131 | after validation passes, the packet id is the header's and valid, so the handler's own id check never fails |
| IotsenseRouter.WireRoundTrip | flow/samples/router_sample/src/protocols/iotsense_router.c:42-93 | a header followed by its payload passes inbound validation when the id is valid, carries the id back and leaves the payload after the header |
| IotsenseRouter.ClientPacketAccepted | swift_io/samples/router_sample/tests/test_router_tcp.py:47-61 | the test client's packing of a version-1 packet is the firmware's header followed by the payload, accepted exactly when the id is valid |
| IotsenseRouter.AddHeader | flow/samples/router_sample/src/protocols/iotsense_router.c:69-93 | NULL exactly when the header pool is exhausted, and then nothing changes; otherwise a fresh header buffer |
| IotsenseRouter.AddHeaderChain | flow/samples/router_sample/src/protocols/iotsense_router.c:82-90 | the header buffer's chain is the header bytes then the payload chain as it was |
| IotsenseRouter.AddHeaderWire | flow/samples/router_sample/src/protocols/iotsense_router.c:82-90 | a header built for a single payload buffer, sent as one packet, passes inbound validation when the id is valid and gives back the id and the payload |
| IotsenseRouter.AddHeaderFirstFragmentOnly | flow/samples/router_sample/src/protocols/iotsense_router.c:86 | a payload of several buffers gets a payload_len that counts only the first, so its wire form fails the inbound size check |
| IotsenseRouter.Classify | flow/samples/router_sample/src/protocols/iotsense_router.c:103-140 | a routed buffer names one of the router's routes |
| IotsenseRouter.ClassifyExact | flow/samples/router_sample/src/protocols/iotsense_router.c:103-140 | a buffer is a parse error exactly when its header fails validation, and otherwise goes to the first route for its packet id |
| IotsenseRouter.InboundAsWritten | flow/samples/router_sample/src/protocols/iotsense_router.c:103-152 | the inbound handler as written keeps the engine well formed |
| IotsenseRouter.Inbound | flow/samples/router_sample/src/protocols/iotsense_router.c:103-152 | the corrected inbound handler keeps the engine well formed |
| IotsenseRouter.InboundOutcome | flow/samples/router_sample/src/protocols/iotsense_router.c:103-152 | exactly one counter goes up by one; a parse error or an unknown id changes nothing else; a routed buffer has exactly its four header bytes stripped, and the rest goes to the route's sink |
| IotsenseRouter.InboundImmediate | flow/samples/router_sample/src/protocols/iotsense_router.c:142-144 | an immediate route sink runs its handler on the payload, and every reference count ends as it was |
| IotsenseRouter.InboundExtraRelease | flow/samples/router_sample/src/protocols/iotsense_router.c:144 | the as-written and corrected inbound handlers differ by exactly one release of the borrowed buffer per routed packet |
| IotsenseRouter.InboundAsWrittenDoubleRelease | flow/samples/router_sample/src/protocols/iotsense_router.c:144 | a server buffer routed to an immediate sink: as written, it is freed by the framework's release after the handler, and the server's own release then meets a freed buffer |
| IotsenseRouter.InboundReleasedOnce | flow/samples/router_sample/src/protocols/iotsense_router.c:144 | through the corrected handler the same buffer is freed by the server's release, exactly once |
| IotsenseRouter.OutboundAsWritten | flow/samples/router_sample/src/protocols/iotsense_router.c:154-177 | the outbound handler as written keeps the engine well formed |
| IotsenseRouter.Outbound | flow/samples/router_sample/src/protocols/iotsense_router.c:154-177 | the corrected outbound handler keeps the engine well formed |
| IotsenseRouter.OutboundOutcome | flow/samples/router_sample/src/protocols/iotsense_router.c:154-177 | an exhausted header pool bumps buffer_errors and changes nothing else; otherwise outbound_packets goes up and the network source is given the header chain: the header for the payload's first fragment, then the payload |
| IotsenseRouter.RefThenHeader | flow/samples/router_sample/src/protocols/iotsense_router.c:88-89 | the header chain built over a payload that has just taken one more reference |
| IotsenseRouter.HeaderSentAndFreed | flow/samples/router_sample/src/protocols/iotsense_router.c:169 | a header over a payload with more than one reference, sent consumed to sinks that queue nothing: the header is freed and the payload loses one reference |
| IotsenseRouter.HeaderUnref | flow/samples/router_sample/src/protocols/iotsense_router.c:88-89 | dropping the one reference of a fresh header frees it and drops one reference of its payload |
| IotsenseRouter.AddHeaderUnfold | flow/samples/router_sample/src/protocols/iotsense_router.c:77-90 | a fresh buffer holding the header bytes, chained to the payload |
| IotsenseRouter.OutboundBalanced | flow/samples/router_sample/src/protocols/iotsense_router.c:154-177 | with immediate network sinks, the corrected handler leaves every buffer as it found it |
| IotsenseRouter.OutboundAsWrittenReleases | flow/samples/router_sample/src/protocols/iotsense_router.c:159-169 | the handler as written releases the borrowed payload reference, with or without a header buffer |
| IotsenseRouter.OutboundAsWrittenDoubleRelease | flow/samples/router_sample/src/protocols/iotsense_router.c:159-169 | a sensor buffer sent to a network source without connections: as written, the framework's release frees it and the sensor's own release then meets a freed buffer |
| IotsenseRouter.OutboundReleasedOnce | flow/samples/router_sample/src/protocols/iotsense_router.c:159-169 | through the corrected handler the same buffer is freed by the sensor's release, exactly once |
| IotsenseRouter.Iotsense.constructor | flow/samples/router_sample/src/protocols/iotsense_router.c:101 | the router over its engine, network source and route sinks |
| IotsenseRouter.Iotsense.InboundHandler | flow/samples/router_sample/src/protocols/iotsense_router.c:103-152 | the network sink's handler in place, as the corrected Inbound, routes unchanged |
| IotsenseRouter.Iotsense.OutboundHandler | flow/samples/router_sample/src/protocols/iotsense_router.c:154-177 | a route's outbound handler in place, as the corrected Outbound, routes and connections unchanged |
| LedController.Toggle | packet_io/samples/router_sample/src/modules/led_controller.c:16-37 | handling a buffer keeps toggle_count within 32 bits |
| LedController.Run | packet_io/samples/router_sample/src/modules/led_controller.c:16-37 | a series of buffers keeps toggle_count within 32 bits |
| LedController.CountAccepted | packet_io/samples/router_sample/src/modules/led_controller.c:21-31 | at most one toggle per buffer of the series |
| LedController.ToggleIffAccepted | packet_io/samples/router_sample/src/modules/led_controller.c:21-34 | a buffer changes the state exactly when it is long enough and holds LED_TOGGLE_CMD (both directions), and such a buffer flips the LED and increments the counter modulo 2^32 |
| LedController.TwoTogglesRestore | packet_io/samples/router_sample/src/modules/led_controller.c:33 | two accepted toggles restore the LED |
| LedController.RunCounts | packet_io/samples/router_sample/src/modules/led_controller.c:33-34 | after a series the LED is on exactly when it was flipped an odd number of times, and without wrap the counter grew by the number of toggle commands |
| LedController.LedStatus.constructor | packet_io/samples/router_sample/src/modules/led_controller.c:13-14 | the LED starts off and the counter at 0 |
| LedController.LedStatus.Handle | packet_io/samples/router_sample/src/modules/led_controller.c:16-37 | the handler updates led_status_on and toggle_count as Toggle says |
| NetBuf.Alloc | flow/samples/basic_packet_routing/src/processor.c:49 | net_buf_alloc gives a new buffer with one reference, no data and no fragments, keeping the slot's old user data, and changes no other buffer |
| NetBuf.Ref | flow/samples/basic_packet_routing/src/processor.c:75 | net_buf_ref adds one reference to that buffer and changes nothing else |
| NetBuf.Unref | libs/weave/samples/packet_routing/src/protocol.c:107-108 | net_buf_unref keeps the heap well formed and only ever frees buffers |
| NetBuf.Chain | flow/samples/basic_packet_routing/src/processor.c:76 | a fragment chain starts at its head and passes only through live buffers |
| NetBuf.FragData | flow/samples/basic_packet_routing/src/processor.c:79 | the data areas along a chain, one per buffer of the chain |
| NetBuf.FragLast | flow/samples/basic_packet_routing/src/processor.c:76 | net_buf_frag_last is a live buffer of the chain with no live successor |
| NetBuf.FragAdd | flow/samples/basic_packet_routing/src/processor.c:76 | net_buf_frag_add links a chain after another, changing no reference count and freeing nothing |
| NetBuf.Append | flow/samples/router_sample/src/protocols/iotsense_router.c:82 | net_buf_add and the writes into the new tail append exactly those bytes to that buffer only |
| NetBuf.Pull | flow/samples/router_sample/src/protocols/iotsense_router.c:142 | net_buf_pull drops exactly the first n bytes of that buffer only |
| NetBuf.SetUserData | libs/weave/include/weave/packet.h:286-295 | writing the user-data area changes that area of that buffer only |
| NetBuf.Prepend | flow/samples/basic_packet_routing/src/processor.c:69-76 | a header written into a fresh head, a reference taken on the payload and the payload linked after the head: exactly those three changes |
| NetBuf.PrependAlloc | flow/samples/basic_packet_routing/src/processor.c:49-76 | allocating and prepending a head adds exactly one buffer and one reference on the payload |
| NetBuf.Bump | libs/weave/samples/packet_routing/src/protocol.c:102 | k more references on one buffer and nothing else changed |
| NetBuf.UnrefShared | libs/weave/include/weave/packet.h:228 | releasing a buffer that holds more than one reference only lowers its count |
| NetBuf.UnrefRef | libs/weave/samples/packet_routing/src/protocol.c:102-107 | net_buf_unref undoes net_buf_ref |
| NetBuf.UnrefAlloc | libs/weave/samples/packet_routing/src/protocol.c:69 | a freshly allocated buffer is freed by its one release, and nothing else changes |
| NetBuf.ChainSameLinks | flow/samples/basic_packet_routing/src/processor.c:79 | chains are equal in two heaps with the same links along them |
| NetBuf.FragDataSame | flow/samples/basic_packet_routing/src/processor.c:79 | same links and same data along a chain give the same fragment data |
| NetBuf.SnapshotRef | flow/samples/basic_packet_routing/src/processor.c:75 | taking a reference does not change what a sink sees of any chain |
| NetBuf.ChainedRelease | libs/weave/samples/packet_routing/src/protocol.c:93-120 | header written, payload referenced and linked, head released once: the head is freed and the payload is back where it started |
| NetBuf.ChainedData | libs/weave/samples/packet_routing/src/protocol.c:93-120 | that chain holds the header's bytes, then the payload chain as it was |
| NetBuf.LinkedData | flow/samples/router_sample/src/protocols/iotsense_router.c:82-89 | a payload linked after a fresh head without a reference of its own: the head's bytes, then the payload chain |
| NetBuf.HeadRelease | flow/samples/router_sample/src/protocols/iotsense_router.c:89 | releasing a head with one reference and a payload linked after it frees the head and releases the payload once |
| NetBuf.RefDrop | libs/weave/samples/packet_routing/src/protocol.c:102-107 | one reference taken and one taken off by hand leave the buffers as they were |
| NetState.Net.constructor | flow/samples/basic_packet_routing/src/processor.c:49 | the program starts with no buffers and nothing sent |
| NetState.Net.Alloc | flow/samples/basic_packet_routing/src/processor.c:49 | net_buf_alloc in place, changing the heap exactly as NetBuf.Alloc says |
| NetState.Net.Ref | flow/samples/basic_packet_routing/src/processor.c:75 | net_buf_ref in place, as NetBuf.Ref |
| NetState.Net.Unref | libs/weave/samples/packet_routing/src/protocol.c:107-108 | net_buf_unref in place, as NetBuf.Unref |
| NetState.Net.FragAdd | flow/samples/basic_packet_routing/src/processor.c:76 | net_buf_frag_add in place, as NetBuf.FragAdd |
| NetState.Net.Append | flow/samples/router_sample/src/protocols/iotsense_router.c:82 | net_buf_add plus the writes into the tail, as NetBuf.Append |
| NetState.Net.Pull | flow/samples/router_sample/src/protocols/iotsense_router.c:142 | net_buf_pull in place, as NetBuf.Pull |
| NetState.Net.SetUserData | libs/weave/include/weave/packet.h:286-295 | a write to the user-data area in place, as NetBuf.SetUserData |
| NetState.Net.Emit | libs/weave/include/weave/packet.h:243-247 | a send leaves the heap alone and records the chain as it is at that moment |
| PacketDefs.Encode | swift_io/samples/basic_packet_routing/src/processor.c:56-62 | the twelve header bytes the processor writes, led by source id and packet type |
| PacketDefs.Decode | swift_io/samples/basic_packet_routing/src/validator.c:30 | reading struct packet_header from a buffer's first twelve bytes gives fields within their widths |
| PacketDefs.RoundTrip | swift_io/samples/basic_packet_routing/src/validator.c:103 | the validator reads back the header the processor wrote, whatever follows it |
| PacketDefs.BytesRoundTrip | swift_io/samples/basic_packet_routing/src/validator.c:30 | re-encoding a header read from a buffer gives its twelve bytes back |
| PacketIo.Offer | packet_io/subsys/packet_io/packet_io.c:55-72 | one sink's put keeps the heap and queues well formed, keeps every sink's identity, capacity and drop policy, and keeps the buffer alive |
| PacketIo.SendLoop | packet_io/subsys/packet_io/packet_io.c:45-73 | the loop over the source's connections keeps the state well formed and delivers to at most one sink per connection |
| PacketIo.Send | packet_io/subsys/packet_io/packet_io.c:20-83 | a send keeps the state well formed and never frees the caller's buffer |
| PacketIo.TotalsUpdate | packet_io/subsys/packet_io/packet_io.c:59-67 | replacing one sink changes the total receptions, drops and queued pointers by exactly that sink's difference |
| PacketIo.OfferAccounts | packet_io/subsys/packet_io/packet_io.c:55-67 | one put is at most one reception or one drop, and a reception queues exactly one more pointer and one more reference on the buffer |
| PacketIo.SendLoopAccounts | packet_io/subsys/packet_io/packet_io.c:45-82 | the delivered count equals the receptions counted, the pointers queued and the references the buffer gained, no other buffer changes, and it is at most the number of connections |
| PacketIo.SendLoopAppends | packet_io/subsys/packet_io/packet_io.c:55 | every sink queue only grows at its tail with copies of the sent buffer, so earlier messages keep their order |
| PacketIo.SendAddsRefs | packet_io/subsys/packet_io/packet_io.c:55-58 | the buffer ends with exactly one extra reference per sink that took it |
| PacketIo.SendConsumeReleases | packet_io/subsys/packet_io/packet_io.c:85-98 | send_consume returns the send's count and then drops the caller's reference, freeing a buffer nobody took |
| PacketIo.PacketSource.constructor | packet_io/subsys/packet_io/packet_io.c:146-169 | a source starts with its connection list and zero statistics |
| PacketIo.PacketSource.GetStats | packet_io/subsys/packet_io/packet_io.c:101-113 | reports the message and delivered counters unchanged |
| PacketIo.PacketSource.ResetStats | packet_io/subsys/packet_io/packet_io.c:129-135 | both counters become zero and the connections are kept |
| PacketIo.PacketIoEngine.constructor | packet_io/subsys/packet_io/packet_io.c:146-169 | the engine starts with an empty heap over the given sink queues, each within its capacity |
| PacketIo.PacketIoEngine.SourceSend | packet_io/subsys/packet_io/packet_io.c:20-83 | a NULL source or buffer returns 0 untouched; otherwise the message counter is bumped, the sinks' queues and the heap become those of Send, and the delivered counter grows by the returned count |
| PacketIo.PacketIoEngine.Put | packet_io/subsys/packet_io/packet_io.c:55-67 | the queue put is exactly the Offer of the specification |
| PacketIo.PacketIoEngine.SourceSendConsume | packet_io/subsys/packet_io/packet_io.c:85-98 | the consuming send leaves the state of SendConsume, which SendConsumeReleases characterises |
| PacketIo.OfferCases | packet_io/subsys/packet_io/packet_io.c:55-72 | a sink with room takes the pointer, a reference and a reception; a full sink that drops on full counts a drop; a full sink that does not drop changes nothing |
| PacketIo.SendNothing | packet_io/subsys/packet_io/packet_io.c:28-40 | a NULL source or buffer, or a source with no sinks, returns 0 and changes no queue or buffer |
| PacketRouter.First | packet_io/samples/router_sample/src/framework/packet_router.c:43-52 | None exactly when no route matches; otherwise a matching position with no match before it |
| PacketRouter.Select | packet_io/samples/router_sample/src/framework/packet_router.c:101-114 | keeps exactly the section's registrations that name the router, never more than the section |
| PacketRouter.SelectAppend | packet_io/samples/router_sample/src/framework/packet_router.c:101-114 | the scan distributes over concatenated stretches of a section, preserving section order |
| PacketRouter.SelectAll | packet_io/samples/router_sample/src/framework/packet_router.c:101-106 | a section made only of the router's routes is registered whole |
| PacketRouter.SelectNone | packet_io/samples/router_sample/src/framework/packet_router.c:101-106 | a section with none of the router's routes registers nothing |
| PacketRouter.CommonOutbound | packet_io/samples/router_sample/src/framework/packet_router.c:24-30 | the protocol handler called is the route's own router's, with the route's router, the unchanged buffer and the route's packet id |
| PacketRouter.InitRoutesDispatchHome | packet_io/samples/router_sample/src/framework/packet_router.c:24-30 | every outbound route that router_init registers dispatches back into that same router's handler |
| PacketRouter.Router.constructor | packet_io/samples/router_sample/src/framework/packet_router.c:96-98 | a router starts with empty route lists and zero counters |
| PacketRouter.Router.FindInbound | packet_io/samples/router_sample/src/framework/packet_router.c:33-53 | the result is the first inbound route with the packet id, or none |
| PacketRouter.Router.FindOutboundBySource | packet_io/samples/router_sample/src/framework/packet_router.c:76-94 | the result is the first outbound route for the source, or none |
| PacketRouter.Router.Search | packet_io/samples/router_sample/src/framework/packet_router.c:43-52 | the linear scan returns the first match in list order |
| PacketRouter.Router.AddInbound | packet_io/samples/router_sample/src/framework/packet_router.c:56-63 | appends the route at the tail of the inbound list, nothing else changes |
| PacketRouter.Router.AddOutbound | packet_io/samples/router_sample/src/framework/packet_router.c:66-73 | appends the route at the tail of the outbound list, nothing else changes |
| PacketRouter.Router.Init | packet_io/samples/router_sample/src/framework/packet_router.c:96-119 | returns 0 and appends, in section order, exactly the registrations naming this router to each list |
| PacketRouter.Router.RegisterInbound | packet_io/samples/router_sample/src/framework/packet_router.c:101-106 | appends exactly the inbound registrations naming this router |
| PacketRouter.Router.RegisterOutbound | packet_io/samples/router_sample/src/framework/packet_router.c:109-114 | appends exactly the outbound registrations naming this router |
| PacketRouter.Router.GetStats | packet_io/samples/router_sample/src/framework/packet_router.c:123-130 | copies out all five counters |
| PacketRouter.Router.ResetStats | packet_io/samples/router_sample/src/framework/packet_router.c:133-140 | all five counters become zero and the routes stay |
| PacketRouter.FirstIsFirst | packet_io/samples/router_sample/src/framework/packet_router.c:43-48 | a match after only non-matching routes is what the search returns |
| PacketRoutingConftest.PacketClient.constructor | samples/packet_routing/pytest/conftest.py:33-34 | the client wraps the TCP connection |
| PacketRoutingConftest.PacketClient.SendCommand | samples/packet_routing/pytest/conftest.py:36-38 | a cmd outside 0..255 raises ValueError and sends nothing (both directions); otherwise exactly that byte is sent |
| PacketRoutingConftest.PacketClient.StartSampling | samples/packet_routing/pytest/conftest.py:40-42 | sends CMD_START_SAMPLING |
| PacketRoutingConftest.PacketClient.StopSampling | samples/packet_routing/pytest/conftest.py:44-46 | sends CMD_STOP_SAMPLING |
| PacketRoutingConftest.PacketClient.RecvExact | samples/packet_routing/pytest/conftest.py:48-60 | returns and consumes what ExactRead says |
| PacketRoutingConftest.PacketClient.ReceivePacket | samples/packet_routing/pytest/conftest.py:62-80 | returns and consumes what ReadPacket says |
| PacketRoutingConftest.PacketClient.ReceivePackets | samples/packet_routing/pytest/conftest.py:82-90 | returns and consumes what ReadPackets says |
| PacketRoutingConftest.PacketClient.ReceiveStep | samples/packet_routing/pytest/conftest.py:85-89 | one turn of the loop keeps its invariant, or ends it with exactly what ReadPackets returns |
| RegisterMapper.Pow2 | register_mapper/subsys/register_mapper/register_mapper.c:56-57 | a power of two is at least 1 |
| RegisterMapper.RegTypeSize | register_mapper/subsys/register_mapper/register_mapper.c:53-64 | each signed type has its unsigned partner's width, the widths double from one byte up to eight, and a code past the last type has width 0 |
| RegisterMapper.ValueOf | register_mapper/include/zephyr_io/register_mapper/register_types.h:54-61 | the tagged value carries the type and fits its width, equal to the argument when the argument already fits |
| RegisterMapper.LookupFrom | register_mapper/subsys/register_mapper/register_mapper.c:22-50 | the first mapping from i on with the address, none before it; None means no mapping from i on has it |
| RegisterMapper.Lookup | register_mapper/subsys/register_mapper/register_mapper.c:22-50 | a found mapping has the address; None means no mapping has it |
| RegisterMapper.LookupUnique | register_mapper/subsys/register_mapper/register_mapper.c:22-50 | in a strictly sorted table the mapping with an address is the only one, so the search result is determined |
| RegisterMapper.Load | register_mapper/subsys/register_mapper/register_mapper.c:105-107 | a register's bytes read as an unsigned value below 256 to the width |
| RegisterMapper.Store | register_mapper/subsys/register_mapper/register_mapper.c:146-148 | the write keeps the message length and leaves every byte outside the field untouched |
| RegisterMapper.StoreThenLoad | register_mapper/subsys/register_mapper/register_mapper.c:107-148 | a read after a write returns the written value cut to the register's width |
| RegisterMapper.SpliceThenRead | register_mapper/subsys/register_mapper/register_mapper.c:107-148 | little-endian encoding spliced into a message decodes back to the same number |
| RegisterMapper.StoreKeepsOther | register_mapper/subsys/register_mapper/register_mapper.c:146-148 | a write does not change what a register with a disjoint field reads |
| RegisterMapper.TypedRoundTrip | register_mapper/include/zephyr_io/register_mapper/register_types.h:54-61 | a value made by the type's own REG_VALUE macro reads back as itself, through two's complement for a signed type |
| RegisterMapper.SignedTrunc | register_mapper/include/zephyr_io/register_mapper/register_types.h:58-61 | two's-complement truncation of an in-range signed value is undone by reading it as signed |
| RegisterMapper.ReadStatus | register_mapper/subsys/register_mapper/register_mapper.c:67-95 | reg_read_value fails with -EINVAL, -ENOENT, -EACCES or the claim's error in that order, and succeeds exactly when none applies |
| RegisterMapper.WriteStatus | register_mapper/subsys/register_mapper/register_mapper.c:117-143 | a write fails with -EINVAL for an unknown address or another type tag, -EACCES for a read-only register or the claim's error, and proceeds exactly when none applies |
| RegisterMapper.ClearChannels | register_mapper/subsys/register_mapper/register_mapper.c:228-230 | clearing flags keeps one flag per channel |
| RegisterMapper.MappedStep | register_mapper/subsys/register_mapper/register_mapper.c:220-246 | a channel is mapped in a longer prefix exactly when it was mapped before or the new mapping belongs to it |
| RegisterMapper.ClearChannelsMeans | register_mapper/subsys/register_mapper/register_mapper.c:228-230 | a pending flag survives exactly when no mapping walked so far belongs to its channel |
| RegisterMapper.CommitOrder | register_mapper/subsys/register_mapper/register_mapper.c:220-246 | the commit notifies at most one channel per mapping and only known channels |
| RegisterMapper.CommitOrderPending | register_mapper/subsys/register_mapper/register_mapper.c:228-233 | every channel notified by the commit was pending |
| RegisterMapper.CommitOrderOnce | register_mapper/subsys/register_mapper/register_mapper.c:220-246 | the commit notifies no channel twice |
| RegisterMapper.CommitOrderComplete | register_mapper/subsys/register_mapper/register_mapper.c:220-246 | the commit notifies exactly the pending channels that some remaining mapping belongs to |
| RegisterMapper.MappedFromStep | register_mapper/subsys/register_mapper/register_mapper.c:220-246 | a channel is mapped from i on exactly when mapping i belongs to it or it is mapped from i + 1 on |
| RegisterMapper.FirstFailureMeans | register_mapper/subsys/register_mapper/register_mapper.c:234-239 | the commit returns 0 exactly when every notification succeeded, and otherwise the first failure's error |
| RegisterMapper.OverlapsShareAddress | register_mapper/subsys/register_mapper/register_mapper.c:279-280 | two registers overlap exactly when some byte address lies in both |
| RegisterMapper.EndAsWritten | register_mapper/subsys/register_mapper/register_mapper.c:263 | the end address is kept in a uint16_t, so it wraps, and it equals the true last byte when that is below 0x10000 |
| RegisterMapper.OverlapsAsWrittenAgrees | register_mapper/subsys/register_mapper/register_mapper.c:261-287 | below the top of the address space the wrapped test and true interval intersection agree |
| RegisterMapper.OverlapMissedAtTop | register_mapper/subsys/register_mapper/register_mapper.c:263-280 | a 32-bit register at 0xFFFE wraps its end to 0x0001, so the test misses the 8-bit register at 0xFFFF that it covers |
| RegisterMapper.SpacedApart | register_mapper/include/zephyr_io/register_mapper/register_mapper.h:44-53 | in a table laid out register after register, each register ends before any later one starts |
| RegisterMapper.SpacedNoOverlap | register_mapper/subsys/register_mapper/register_mapper.c:257-296 | a table laid out register after register passes the overlap check |
| RegisterMapper.NoOverlapSorted | register_mapper/subsys/register_mapper/register_mapper.c:34-47 | a table in address order that passes the overlap check is strictly sorted, which the binary search needs |
| RegisterMapper.OverlapTestTableRejected | register_mapper/tests/subsys/register_mapper/unit_test/src/test_advanced.c:468-499 | the four-register overlap test table fails the check |
| RegisterMapper.Mapper.constructor | register_mapper/include/zephyr_io/register_mapper/register_mapper.h:44-53 | the mapper holds the given table, channel states and messages, with nothing pending or notified |
| RegisterMapper.Mapper.FindRegister | register_mapper/subsys/register_mapper/register_mapper.c:22-50 | the binary search returns the lookup's answer on a sorted table |
| RegisterMapper.Mapper.ReadValue | register_mapper/subsys/register_mapper/register_mapper.c:67-114 | the result code is ReadStatus's, no value on error, and on success the register's type and field bytes |
| RegisterMapper.Mapper.WriteCommon | register_mapper/subsys/register_mapper/register_mapper.c:117-177 | an error changes nothing; otherwise exactly the field is overwritten, then the channel is notified with its flag cleared or marked pending |
| RegisterMapper.Mapper.WriteValue | register_mapper/subsys/register_mapper/register_mapper.c:180-183 | a successful write notifies its channel at once and returns the notification's result |
| RegisterMapper.Mapper.BlockWriteBegin | register_mapper/subsys/register_mapper/register_mapper.c:191-200 | takes the block semaphore when free; when taken, fails with -EBUSY or -EAGAIN and changes nothing else |
| RegisterMapper.Mapper.BlockWriteRegister | register_mapper/subsys/register_mapper/register_mapper.c:203-206 | a successful write only marks its channel pending and notifies nothing |
| RegisterMapper.Mapper.BlockWriteCommit | register_mapper/subsys/register_mapper/register_mapper.c:209-250 | releases the semaphore, notifies each pending mapped channel once in table order, and returns the first failure |
| RegisterMapper.Mapper.CommitWalk | register_mapper/subsys/register_mapper/register_mapper.c:220-246 | the walk notifies the channels of CommitOrder and clears their flags |
| RegisterMapper.Mapper.CommitVisit | register_mapper/subsys/register_mapper/register_mapper.c:221-245 | one step skips a repeated channel, otherwise notifies a pending one, clears it and records the first error |
| RegisterMapper.Mapper.ValidateNoOverlaps | register_mapper/subsys/register_mapper/register_mapper.c:257-296 | the corrected overlap check: -EINVAL exactly when two mappings' address ranges intersect, 0 otherwise. The C as written keeps each end in a uint16_t and misses a pair at the top of the address space (RegisterMapper.OverlapMissedAtTop); below the top the two agree (RegisterMapper.OverlapsAsWrittenAgrees) |
| RegisterMapper.Mapper.OverlapsWith | register_mapper/subsys/register_mapper/register_mapper.c:265-286 | the inner loop counts some overlap exactly when a later mapping clashes with mapping i |
| RegisterMapper.Mapper.Foreach | register_mapper/subsys/register_mapper/register_mapper.c:303-330 | -EINVAL without a callback; otherwise callbacks run in table order and stop after the first non-zero return, whose count is returned |
| RegisterMapper.OverlapsAsWritten | register_mapper/subsys/register_mapper/register_mapper.c:261-280 | a pair reported as overlapping has both start addresses inside the 16-bit address space |
| RouterTcpTest.NewPacket | swift_io/samples/router_sample/tests/test_router_tcp.py:41-45 | a new packet has version 1, the given id, and the payload with its own length |
| RouterTcpTest.Header | swift_io/samples/router_sample/tests/test_router_tcp.py:53-59 | the header is 4 bytes |
| RouterTcpTest.Pack | swift_io/samples/router_sample/tests/test_router_tcp.py:47-62 | pack fails for payload_len above 65535 exactly, succeeds exactly when every field fits its format (both directions), and gives version, id, length little-endian, then the payload |
| RouterTcpTest.Wire | swift_io/samples/router_sample/tests/test_router_tcp.py:47-62 | the bytes pack emits for a packet whose fields fit |
| RouterTcpTest.Unpack | swift_io/samples/router_sample/tests/test_router_tcp.py:64-78 | None exactly below 4 bytes; otherwise the header fields, and the payload only when all of it is present |
| RouterTcpTest.UnpackPrefix | swift_io/samples/router_sample/tests/test_router_tcp.py:64-78 | unpack reads only the bytes of the packet it returns |
| RouterTcpTest.UnpackPack | swift_io/samples/router_sample/tests/test_router_tcp.py:47-78 | unpacking a packed well-formed packet, with anything after it, gives it back |
| RouterTcpTest.PackUnpack | swift_io/samples/router_sample/tests/test_router_tcp.py:64-78 | the bytes a complete packet was unpacked from are exactly its packing |
| RouterTcpTest.FrameSize | swift_io/samples/router_sample/tests/test_router_tcp.py:168 | the packet size is the 4 header bytes plus the declared payload |
| RouterTcpTest.ReassembleWellFormed | swift_io/samples/router_sample/tests/test_router_tcp.py:162-180 | every packet the parse loop takes off has a length field matching its payload |
| RouterTcpTest.ReassembleStalls | swift_io/samples/router_sample/tests/test_router_tcp.py:162-180 | the loop stops only when nothing more can be taken off |
| RouterTcpTest.ReassembleAccounts | swift_io/samples/router_sample/tests/test_router_tcp.py:162-180 | the buffer is exactly the packing of the packets taken off followed by the leftover: no byte is skipped or dropped |
| RouterTcpTest.AccountsStep | swift_io/samples/router_sample/tests/test_router_tcp.py:169-172 | one complete packet taken off keeps the byte accounting |
| RouterTcpTest.SerializeCons | swift_io/samples/router_sample/tests/test_router_tcp.py:168-172 | packing a list is the head's bytes followed by the rest's |
| RouterTcpTest.ReassembleStep | swift_io/samples/router_sample/tests/test_router_tcp.py:164-172 | one turn of the loop takes a complete head packet off and parses the rest |
| RouterTcpTest.ReassembleSerialize | swift_io/samples/router_sample/tests/test_router_tcp.py:162-180 | packing well-formed packets and parsing the bytes yields the packets back, in order, and leaves the stalled tail |
| RouterTcpTest.ReassembleIncremental | swift_io/samples/router_sample/tests/test_router_tcp.py:146-187 | parsing after each chunk takes off the same packets and leaves the same bytes as parsing everything at once |
| RouterTcpTest.PrefixStep | swift_io/samples/router_sample/tests/test_router_tcp.py:164-172 | a complete packet at the front of a buffer is the first one taken off whatever follows |
| RouterTcpTest.StalledFixed | swift_io/samples/router_sample/tests/test_router_tcp.py:175-180 | a stalled buffer is left as it is |
| RouterTcpTest.TcpClient.constructor | swift_io/samples/router_sample/tests/test_router_tcp.py:84-89 | no packets received yet |
| RouterTcpTest.TcpClient.ParseBuffer | swift_io/samples/router_sample/tests/test_router_tcp.py:162-180 | the inner loop appends exactly Packets of the buffer and leaves Leftover of it |
| RouterTcpTest.TcpClient.ReceiveLoop | swift_io/samples/router_sample/tests/test_router_tcp.py:146-187 | the receive thread appends exactly the packets of the whole byte stream and keeps its unparsed rest |
| RouterTcpTest.TcpClient.GetPacketsById | swift_io/samples/router_sample/tests/test_router_tcp.py:198-200 | the packets returned are exactly the received ones with that id (both directions) |
| RouterTcpTest.WithId | swift_io/samples/router_sample/tests/test_router_tcp.py:200 | the filter keeps exactly the packets with that id and no more than the list |
| RouterTcpTest.WithIdAppend | swift_io/samples/router_sample/tests/test_router_tcp.py:200 | the filter keeps receipt order: it distributes over concatenation |
| SensorRpc.SimulatedValue | libs/weave/samples/sensor_rpc/src/sensor_module.c:74 | the simulated reading always lies in 0..199 |
| SensorRpc.Record | libs/weave/samples/sensor_rpc/src/sensor_module.c:81-97 | one read keeps the statistics within their C types: uint32 counters and int32 bounds |
| SensorRpc.Reads | libs/weave/samples/sensor_rpc/src/sensor_module.c:81-97 | a run of reads keeps the statistics within their C types |
| SensorRpc.CountAbove | libs/weave/samples/sensor_rpc/src/sensor_module.c:94-96 | the number of threshold events among some reads is at most the number of reads |
| SensorRpc.RecordOne | libs/weave/samples/sensor_rpc/src/sensor_module.c:81-97 | one read counts itself, widens [min, max] to take in the value, and counts a threshold event exactly when the value is above the threshold |
| SensorRpc.ReadsCount | libs/weave/samples/sensor_rpc/src/sensor_module.c:81-97 | after a run of reads both counters have grown by the reads and by the values above the threshold, modulo 2^32, and [min, max] is the old range widened by every value read |
| SensorRpc.ReadsFromBoot | libs/weave/samples/sensor_rpc/src/sensor_module.c:31-35 | from the boot statistics (min INT32_MAX, max INT32_MIN), a non-empty run of reads leaves min and max at the smallest and largest value read |
| SensorRpc.SensorModule.constructor | libs/weave/samples/sensor_rpc/src/sensor_module.c:24-36 | the module starts with sample rate 1000 ms, threshold 100, auto-sampling on and the boot statistics |
| SensorRpc.SensorModule.ReadSensor | libs/weave/samples/sensor_rpc/src/sensor_module.c:63-100 | read_sensor_handler: -EINVAL for a NULL request with nothing changed; otherwise the reading is returned when a response buffer is passed, recorded in the statistics and kept as the last value |
| SensorRpc.SensorModule.SetConfig | libs/weave/samples/sensor_rpc/src/sensor_module.c:102-129 | set_config_handler: -EINVAL for a NULL request with nothing changed; otherwise the request becomes the configuration, and the timer runs at its rate when auto-sampling is on and is stopped when it is off |
| SensorRpc.SensorModule.GetStats | libs/weave/samples/sensor_rpc/src/sensor_module.c:131-142 | get_stats_handler returns 0 and a copy of the statistics exactly when a response buffer is passed |
| SensorStream.ReadPacket | flow/samples/router_sample/tcp_client.py:93-131 | a returned packet has a non-empty payload of exactly content_length bytes |
| SensorStream.ReadPackets | flow/samples/router_sample/tcp_client.py:133-155 | receive_packets returns at most count packets |
| SensorStream.ReadPacketsStep | samples/packet_routing/pytest/conftest.py:82-90 | one turn of the loop: a None ends it, a packet is appended and the loop goes on with one fewer |
| SensorStream.ReadSoFarStart | samples/packet_routing/pytest/conftest.py:84 | the receive loop's invariant holds on entry |
| SensorStream.ReadSoFarMore | samples/packet_routing/pytest/conftest.py:85-89 | the invariant survives appending one more packet |
| SensorStream.ReadSoFarDone | samples/packet_routing/pytest/conftest.py:85-90 | when the loop stops, the packets read are what ReadPackets returns |
| SensorStream.ReadPacketAvailable | samples/packet_routing/pytest/conftest.py:62-80 | a packet is returned exactly when the available bytes hold a header and a non-empty payload of the announced length; it is those bytes decoded, and the rest stay available |
| SensorStream.HeaderOf | libs/weave/samples/packet_routing/src/protocol.c:93-98 | the header the firmware writes for a packet fits the wire format |
| SensorStream.EncodePacket | libs/weave/samples/packet_routing/src/protocol.c:93-98 | a packet on the wire is the 14-byte header and content_length payload bytes |
| SensorStream.ReadPacketOfEncoded | samples/packet_routing/pytest/conftest.py:62-80 | a packet the firmware sends comes back as sent, except an empty payload reads as None with its header consumed |
| SensorStream.ReadPacketsOfEncoded | samples/packet_routing/pytest/conftest.py:82-90 | a stream of sent non-empty packets is received in order, leaving what follows |
| SensorStream.SensorName | flow/samples/router_sample/tcp_client.py:34-35 | the name is "SENSOR" followed by at least one character |
| SensorStream.SensorNameId | flow/samples/router_sample/tcp_client.py:34-35 | the packet id can be read back from the name |
| SensorWire.EncodeHeader | libs/weave/samples/packet_routing/src/protocol.c:19-26 | the packed 14-byte image of struct packet_header, multi-byte fields little-endian |
| SensorWire.DecodeHeader | flow/samples/router_sample/tcp_client.py:108 | struct.unpack("<BBHHQ") on 14 bytes gives fields within their widths, packet_id first and content_length at offset 4 |
| SensorWire.DecodeEncodeHeader | flow/samples/router_sample/tcp_client.py:108 | the client decodes exactly the header the firmware wrote |
| SensorWire.EncodeDecodeHeader | flow/samples/router_sample/tcp_client.py:108 | every 14 bytes are the image of the header they decode to |
| PySocket.RecvStep | flow/samples/router_sample/tcp_client.py:175-180 | recv(k) returns at most k bytes, None on a timeout |
| PySocket.RecvExactFrom | flow/samples/router_sample/tcp_client.py:170-181 | the loop of _recv_exact continued from the bytes already read returns exactly n bytes extending them, or None |
| PySocket.ExactRead | flow/samples/router_sample/tcp_client.py:170-181 | _recv_exact(n) returns exactly n bytes or None |
| PySocket.RecvExactFromAvailable | flow/samples/router_sample/tcp_client.py:173-181 | the loop succeeds exactly when enough bytes arrive before a timeout or close; it returns the first of them and leaves the rest available, in order |
| PySocket.ExactReadAvailable | samples/packet_routing/pytest/conftest.py:48-60 | recv_exact(n) returns the first n available bytes exactly when there are n, and leaves the rest available |
| PySocket.Socket.constructor | samples/packet_routing/pytest/conftest.py:33-34 | a socket holds what the peer will send and has sent nothing |
| PySocket.Socket.Recv | flow/samples/router_sample/tcp_client.py:175 | one recv call consumes what RecvStep says |
| PySocket.Socket.Send | samples/packet_routing/pytest/conftest.py:38 | sending appends the data to what was sent |
| PySocket.Socket.RecvExact | samples/packet_routing/pytest/conftest.py:48-60 | the client's recv_exact loop returns and consumes what ExactRead says |
| SettingsRegisters.FieldReg | samples/settings_registers/src/settings.c:86 | a field's register number is base_reg plus its offset cut to 16 bits |
| SettingsRegisters.FieldFrom | samples/settings_registers/src/settings.c:85-92 | the first field from j on answering to the register, and None means none does |
| SettingsRegisters.FindRegFrom | samples/settings_registers/src/settings.c:76-94 | the first field in registry order answering to the register, skipping observables without a group, and None means none does |
| SettingsRegisters.ObsFrom | samples/settings_registers/src/settings.c:114-132 | the first group whose range holds the register, with the register's offset in it, and None means no group holds it |
| SettingsRegisters.Transfer | samples/settings_registers/src/settings.c:148-152 | the transfer length never passes the request, the group's range or the struct, and stops at the first of them to run out |
| SettingsRegisters.FieldImage | samples/settings_registers/src/settings.c:235-237 | the proposed image has the field's bytes replaced and every other byte kept |
| SettingsRegisters.Validate | src/observable.c:64-75 | an observable without a validator accepts every value |
| SettingsRegisters.BulkWriteThenRead | samples/settings_registers/src/settings.c:136-191 | a bulk read after a bulk write of the same register moves the same window and returns the bytes written |
| SettingsRegisters.FieldSetThenGet | samples/settings_registers/src/settings.c:195-248 | a field read after a field write returns the bytes written and other fields keep theirs |
| SettingsRegisters.GroupField | samples/settings_registers/src/settings.c:85-92 | the inner loop returns the first field FieldFrom specifies |
| SettingsRegisters.Settings.constructor | samples/settings_registers/src/settings.c:40 | the registry starts empty |
| SettingsRegisters.Settings.Register | samples/settings_registers/src/settings.c:43-56 | -EINVAL for NULL and -ENOMEM with eight registered, each changing nothing; otherwise the observable is appended |
| SettingsRegisters.Settings.GetCount | samples/settings_registers/src/settings.c:58-61 | the count is the registry's size and never exceeds eight |
| SettingsRegisters.Settings.GetAt | samples/settings_registers/src/settings.c:63-69 | NULL exactly for an index outside the registry, otherwise the observable at that index |
| SettingsRegisters.Settings.FindReg | samples/settings_registers/src/settings.c:73-95 | 0 with the first matching field, -ENOENT when no field answers |
| SettingsRegisters.Settings.FindField | samples/settings_registers/src/settings.c:97-106 | the field settings_find_reg finds, NULL when it finds none |
| SettingsRegisters.Settings.FindObs | samples/settings_registers/src/settings.c:114-132 | 0 with the first holding group and offset, -ENOENT otherwise |
| SettingsRegisters.Settings.Read | samples/settings_registers/src/settings.c:136-163 | -ENOENT outside every group, -EAGAIN without a value buffer, otherwise the window's bytes and their count |
| SettingsRegisters.Settings.Write | samples/settings_registers/src/settings.c:165-191 | -ENOENT or -EAGAIN change nothing; otherwise exactly the window's bytes change, the observable is published and the count returned |
| SettingsRegisters.Settings.FieldGet | samples/settings_registers/src/settings.c:195-215 | the error cases in the source's order, otherwise the field's bytes and their size |
| SettingsRegisters.Settings.FieldSet | samples/settings_registers/src/settings.c:217-248 | every error leaves the values unchanged; success writes exactly the field's bytes, publishes and returns the publish result |
| SettingsRegistersSample.U16At | libs/weave/samples/settings_registers/src/motor_settings.c:16-17 | a uint16_t field of an image is below 0x10000 |
| SettingsRegistersSample.MotorValidateMeans | libs/weave/samples/settings_registers/src/motor_settings.c:44-61 | the motor validator refuses exactly a speed above 10000, an accel above 5000 or a direction above 1, always with -EINVAL |
| SettingsRegistersSample.NetworkValidateMeans | samples/settings_registers/src/network_settings.c:36-47 | the network validator refuses exactly a port of 0 |
| SettingsRegistersSample.SampleRegistryFits | samples/settings_registers/src/main.c:242-243 | the two registered groups fit their structs and the registry stays within eight observables |
| SettingsRegistersSample.MotorLookups | libs/weave/samples/settings_registers/src/motor_settings.c:25-41 | registers 0x100, 0x106, 0x107 and 0x108 find the motor's speed, status, temp and position fields |
| SettingsRegistersSample.NetworkLookups | samples/settings_registers/src/network_settings.c:21-33 | registers 0x200 and 0x204 find the network's ip_addr and port fields, after the whole motor table |
| SettingsRegistersSample.UnknownRegister | libs/weave/samples/settings_registers/pytest/test_settings_registers.py:57-61 | register 0x999 is neither a field nor inside any group |
| SettingsRegistersSample.U16FieldWrite | libs/weave/samples/settings_registers/pytest/test_settings_registers.py:29-34 | a two-byte field write stores lo + 256 * hi at the field and keeps every other byte |
| SettingsRegistersSample.SpeedFieldWrites | libs/weave/samples/settings_registers/pytest/test_settings_registers.py:63-73 | speed 10001 is refused and 10000 accepted on an image the validator accepted |
| SettingsRegistersSample.AccelDirectionFieldWrites | libs/weave/samples/settings_registers/pytest/test_settings_registers.py:75-85 | accel 5001 and direction 2 are refused |
| SettingsRegistersSample.StatusReadOnly | libs/weave/samples/settings_registers/pytest/test_settings_registers.py:96-106 | the status field is readable but not writable, so a field write to it is refused |
| SettingsRegistersSample.NetworkPortWrites | libs/weave/samples/settings_registers/pytest/test_settings_registers.py:50-55 | port 443 is accepted and port 0 refused |
| SettingsRegistersSample.SampleBulk | libs/weave/samples/settings_registers/pytest/test_settings_registers.py:135-147 | a bulk write of e8 03 at 0x100 moves two bytes into speed; a four-byte bulk read at 0x102 moves four bytes |
| SettingsRegistersSample.BulkWriteSkipsValidator | samples/settings_registers/src/settings.c:165-191 | a bulk write consults no validator, so it can store a speed of 10001 that a field write refuses |
| SettingsTable.TypeSize | samples/settings_table/src/settings_api.c:38-44 | a known type has width 1, 2, 4 or 8 bytes, and width 0 marks exactly the unknown types |
| SettingsTable.TypeName | samples/settings_table/src/settings_api.c:46-52 | the name is "?" exactly for an unknown type |
| SettingsTable.ReadValue | samples/settings_table/src/settings_api.c:138-177 | the value read always fits the register's type |
| SettingsTable.WriteValue | samples/settings_table/src/settings_api.c:179-218 | the image keeps its length and every byte outside the register's width is untouched |
| SettingsTable.Stored | samples/settings_table/src/settings_api.c:179-218 | what a write leaves behind always fits the register's type |
| SettingsTable.StoredFits | samples/settings_table/src/settings_api.c:179-218 | a value that fits its type is stored unchanged |
| SettingsTable.U16 | samples/settings_table/src/settings_api.c:248 | a uint16_t argument is below 0x10000 and equals the value whenever that already fits |
| SettingsTable.ClashFromMeans | samples/settings_table/src/settings_api.c:297-310 | the inner scan finds a clash exactly when some later register overlaps in address or in struct offset |
| SettingsTable.RegFault | samples/settings_table/src/settings_api.c:283-315 | each register's checks give 0, -EINVAL or -ERANGE only |
| SettingsTable.RegAreaFrom | samples/settings_table/src/settings_api.c:280-318 | validate_reg_area returns only 0, -EINVAL or -ERANGE |
| SettingsTable.OverlapMeansSharedPoint | samples/settings_table/src/settings_api.c:248-251 | the overlap test is symmetric and, on non-empty ranges, holds exactly when the ranges share a point |
| SettingsTable.ReadAfterWrite | samples/settings_table/src/settings_api.c:138-218 | reading a register just written gives the value cut to its width, which is the value itself when it fits |
| SettingsTable.ReadAfterOtherWrite | samples/settings_table/src/settings_api.c:138-218 | a write to a non-overlapping register does not change what another register reads |
| SettingsTable.ValidateRangeMeans | samples/settings_table/src/settings_api.c:224-237 | a NO_RANGE register accepts anything; an integer register accepts exactly [min, max]; bool and unknown types accept everything |
| SettingsTable.RegAreaFromZero | samples/settings_table/src/settings_api.c:282-317 | the validation passes exactly when no register has a fault |
| SettingsTable.RegFaultZero | samples/settings_table/src/settings_api.c:283-315 | a register passes exactly when it fits the struct and the area, clashes with no later register, and its default is in range |
| SettingsTable.RegsClashPlain | samples/settings_table/src/settings_api.c:301-308 | inside a 16-bit area the uint16_t ends never wrap, so the clash test is plain interval overlap |
| SettingsTable.RegAreaSound | samples/settings_table/src/settings_api.c:280-318 | a table that validate_reg_area accepts is well formed: every register fits, no two overlap, every default is in range |
| SettingsTable.RegAreaComplete | samples/settings_table/src/settings_api.c:280-318 | every well-formed table is accepted |
| SettingsTable.PackedApart | samples/settings_table/src/settings_api.c:306-308 | in a packed table every register ends before any later one starts in the struct |
| SettingsTable.PackedWellFormed | samples/settings_table/src/settings_api.c:280-318 | a packed table whose registers fit and whose defaults are in range is well formed |
| SettingsTable.RegsOf | samples/settings_table/src/settings_api.c:350-351 | a custom area has no register table |
| SettingsTable.AreaFrom | samples/settings_table/src/settings_api.c:390-399 | the result is the first area from i on that holds the address, and None means no area from i on holds it |
| SettingsTable.AreaFor | samples/settings_table/src/settings_api.c:390-399 | the result is the first area holding the address, and None means no area holds it |
| SettingsTable.RegFrom | samples/settings_table/src/settings_api.c:401-421 | the result is the first register with that address in the area, and None means none has it |
| SettingsTable.Clamp | samples/settings_table/src/settings_api.c:491-493 | the cut length stays inside the area, is at most the request, and equals it when the request fits |
| SettingsTable.Proposed | samples/settings_table/src/settings_api.c:502-506 | the proposed image holds the new bytes at the offset and the old ones everywhere else |
| SettingsTable.WriteError | samples/settings_table/src/settings_api.c:496-520 | the write's outcome is 0 or a negative error |
| SettingsTable.WithDefaults | samples/settings_table/src/settings_api.c:326-330 | the default pass keeps the image's length |
| SettingsTable.RegAreaIndices | samples/settings_table/src/settings_api.c:348-357 | only register areas in the range are published, in order |
| SettingsTable.AreaCodes | samples/settings_table/src/settings_api.c:348-355 | one code per area, 0 exactly for an area that passes (a custom area always does) |
| SettingsTable.InitStop | samples/settings_table/src/settings_api.c:348-355 | the init loop stops at the first failing area, every earlier one having passed |
| SettingsTable.CheckedFits | samples/settings_table/src/settings_api.c:287-294 | every register of an accepted table fits in the struct |
| SettingsTable.OffsetsApartPrefix | samples/settings_table/src/settings_api.c:326-330 | a prefix of a table without struct overlaps has none either |
| SettingsTable.DefaultsLast | samples/settings_table/src/settings_api.c:326-330 | the last default written reads back cut to its type |
| SettingsTable.DefaultsEarlier | samples/settings_table/src/settings_api.c:326-330 | a later default written elsewhere does not disturb an earlier register |
| SettingsTable.DefaultsReadBack | samples/settings_table/src/settings_api.c:321-333 | after apply_reg_defaults every register of a non-overlapping table reads back its default cut to its type |
| SettingsTable.DefaultsRestored | samples/settings_table/src/settings_api.c:321-333 | a default that fits its type reads back as itself |
| SettingsTable.TopAreaNeverClashes | samples/settings_table/src/settings_api.c:262-271 | an area ending exactly at 0x10000 has a uint16_t end of 0 and so is never found overlapping anything |
| SettingsTable.AcceptedAreasDisjoint | samples/settings_table/src/settings_api.c:258-277 | accepted areas below the top of the address space share no address |
| SettingsTable.ValidateAreaAddresses | samples/settings_table/src/settings_api.c:258-277 | returns 0 exactly when no two areas clash, and -EINVAL otherwise |
| SettingsTable.RegFaultLate | samples/settings_table/src/settings_api.c:312-315 | a register that fits and clashes with nothing fails only on an out-of-range default, with -ERANGE |
| SettingsTable.ClashScan | samples/settings_table/src/settings_api.c:297-310 | the loop reports a clash exactly when ClashFromMeans says one exists |
| SettingsTable.ValidateRegArea | samples/settings_table/src/settings_api.c:280-318 | the loops return what RegAreaFrom specifies, so soundness and completeness carry over |
| SettingsTable.DefaultsOf | samples/settings_table/src/settings_api.c:326-330 | the loop leaves the default image that DefaultsReadBack characterises |
| SettingsTable.CheckRegWriteAccess | samples/settings_table/src/settings_api.c:428-444 | -EROFS exactly when the written range touches a register without write access, else 0 |
| SettingsTable.ValidateRegWrite | samples/settings_table/src/settings_api.c:447-467 | -ERANGE exactly when a touched register's new value is out of range, else 0 |
| SettingsTable.Defaulted | samples/settings_table/src/settings_api.c:348-357 | a checked area's image keeps its length once defaults are written |
| SettingsTable.InitImagesStep | samples/settings_table/src/settings_api.c:348-357 | one more area of the init loop extends the invariant relating old and new images |
| SettingsTable.RegFor | samples/settings_table/src/settings_api.c:401-421 | a register is found exactly in the register area holding the address, at that offset |
| SettingsTable.Table.constructor | samples/settings_table/src/settings_api.c:21 | at boot every area struct is zeroed, nothing is published and the table is not initialized |
| SettingsTable.Table.AreaCount | samples/settings_table/src/settings_api.c:375-384 | the count is the number of areas |
| SettingsTable.Table.ApplyRegDefaults | samples/settings_table/src/settings_api.c:321-333 | only the area's image changes, to its defaults, and the area is published once |
| SettingsTable.Table.SysInit | samples/settings_table/src/settings_api.c:339-362 | -EINVAL and nothing changed when areas clash; otherwise register areas are checked and defaulted in order up to the first failure, and the table is initialized exactly when all pass |
| SettingsTable.Table.IsInitialized | samples/settings_table/src/settings_api.c:370-373 | reports the initialized flag |
| SettingsTable.Table.FindArea | samples/settings_table/src/settings_api.c:390-399 | the loop returns the first area holding the address |
| SettingsTable.Table.FindReg | samples/settings_table/src/settings_api.c:401-421 | the loop returns the register RegFor specifies |
| SettingsTable.Table.SettingRegRead | samples/settings_table/src/settings_api.c:469-484 | the bytes returned are the struct's bytes at the offset, cut at the end of the area |
| SettingsTable.Table.SettingRegWrite | samples/settings_table/src/settings_api.c:486-528 | a write touching a read-only or out-of-range register, or refused by the validator, changes nothing; otherwise exactly the cut bytes change, the area is published and the length returned |
| SettingsTable.Table.SettingsRead | samples/settings_table/src/settings_api.c:534-551 | -EINVAL without a buffer, -ENXIO before init, -ENOENT for an unmapped address, else the area's read |
| SettingsTable.Table.SettingsWrite | samples/settings_table/src/settings_api.c:553-570 | -EINVAL without a buffer, -ENXIO before init, -ENOENT for an unmapped address, each changing nothing, else the area's write |
| SettingsTable.Table.RegGet | samples/settings_table/src/settings_api.c:576-603 | the error cases in the source's order, else the register's current value |
| SettingsTable.Table.RegSet | samples/settings_table/src/settings_api.c:605-653 | any error leaves every image and the publish log unchanged; success stores the value in the register and publishes the area |
| SettingsTable.Table.InitArea | samples/settings_table/src/settings_api.c:350-356 | one area's code is its AreaCodes entry, and a passing register area gets its defaults and is published |
| SettingsTable.Table.ApplyAllDefaults | samples/settings_table/src/settings_api.c:659-684 | every register area gets its defaults in section order, each published |
| SettingsTable.Table.DefaultStep | samples/settings_table/src/settings_api.c:659-684 | one step of the reset loop keeps the loop invariant |
| SettingsTable.Table.ResetDefaults | samples/settings_table/src/settings_api.c:659-684 | -ENXIO before init and -EINVAL for a custom area, each changing nothing; otherwise the one area, or every register area, gets its defaults |
| SettingsTable.ValidateRange | samples/settings_table/src/settings_api.c:224-237 | a NO_RANGE register accepts any value; an integer register with a range accepts exactly the values from min to max |
| SettingsTableSample.Speed | samples/settings_table/src/motor_settings.c:19 | the motor's speed is a uint16_t read from its register |
| SettingsTableSample.MotorValidateMeans | samples/settings_table/src/motor_settings.c:28-38 | the motor validator refuses exactly an enabled motor with speed 0 |
| SettingsTableSample.SensorValidateMeans | samples/settings_table/src/sensor_settings.c:28-38 | the sensor validator refuses exactly a channel mask of 0 |
| SettingsTableSample.MotorRegsChecked | samples/settings_table/src/motor_settings.c:53-59 | the motor register table passes validate_reg_area |
| SettingsTableSample.SensorRegsChecked | samples/settings_table/src/sensor_settings.c:53-58 | the sensor register table passes validate_reg_area |
| SettingsTableSample.SampleInitializes | samples/settings_table/pytest/test_settings_shell.py:4-8 | the two areas do not clash and both tables pass, so SYS_INIT completes and the table is initialized |
| SettingsTableSample.SampleOffsetsApart | samples/settings_table/src/motor_settings.c:53-59 | the registers of each table lie apart in their struct |
| SettingsTableSample.SampleDefaults | samples/settings_table/pytest/test_settings_shell.py:65-75 | after init or reset the motor reads speed 1000 and accel 500 and the sensor sample rate 100, whatever the images held |
| SettingsTableSample.SampleLookups | samples/settings_table/pytest/test_settings_shell.py:17-33 | 0x0100 and 0x0106 find the motor's speed and status registers, 0x0200 and 0x0202 the sensor's rate and temp_offset |
| SettingsTableSample.SampleRanges | samples/settings_table/pytest/test_settings_shell.py:36-46 | a speed of 10001 and a sample rate of 0 are out of range; 5000, 9999, 500 and -25 are in range |
| SettingsTableSample.StatusWriteRefused | samples/settings_table/pytest/test_settings_shell.py:78-82 | a write reaching the read-only status register fails with -EROFS |
| SettingsTableSample.OnlySpeedTouched | samples/settings_table/pytest/test_settings_shell.py:55-62 | a two-byte write at the motor's base touches the speed register alone |
| SettingsTableSample.SpeedBytesWrite | samples/settings_table/pytest/test_settings_shell.py:55-62 | writing 0x34 0x12 at 0x0100 passes every check and speed then reads 4660 |
| SettingsTableSample.TempOffsetRoundTrip | samples/settings_table/pytest/test_settings_shell.py:101-106 | a temp_offset of -25 is stored as two's complement and read back as -25 |
| SettingsTableSample.EnableWithoutSpeedRefused | samples/settings_table/src/motor_settings.c:34-36 | enabling a motor whose speed is 0 is refused with -EINVAL whatever else the image holds |
| SwiftIoRuntime.SwiftSource.constructor | swift_io/include/zephyr_io/swift_io/swift_io.h:54-60 | a source starts with no connections |
| SwiftIoRuntime.SwiftConnection.constructor | swift_io/include/zephyr_io/swift_io/swift_io.h:119-126 | a connection records its source and sink and starts unlinked |
| SwiftIoRuntime.IndexOf | swift_io/subsys/swift_io/swift_io_runtime.c:83 | None exactly when the connection is absent; otherwise its first position, with no earlier copy |
| SwiftIoRuntime.Unlink | swift_io/subsys/swift_io/swift_io_runtime.c:83 | removing a listed node shortens the list by one; an absent node leaves it as it was |
| SwiftIoRuntime.AddResults | swift_io/subsys/swift_io/swift_io_runtime.c:13-66 | -EINVAL, -EBUSY and -EALREADY each occur exactly under their condition, every error leaves the list as it was, and success appends the connection |
| SwiftIoRuntime.AddKeepsDistinct | swift_io/subsys/swift_io/swift_io_runtime.c:54-61 | an add never puts the same connection in a list twice |
| SwiftIoRuntime.AddThenRemove | swift_io/subsys/swift_io/swift_io_runtime.c:13-88 | adding a fresh unlinked connection and removing it again restores the original list |
| SwiftIoRuntime.ConnectionAdd | swift_io/subsys/swift_io/swift_io_runtime.c:13-66 | the return code and new list are those of Add, the node is linked exactly on success, and the list keeps agreeing with the linked flags |
| SwiftIoRuntime.ConnectionRemove | swift_io/subsys/swift_io/swift_io_runtime.c:68-88 | the return code and new list are those of Remove, the node is unlinked exactly on success, and the list keeps agreeing with the linked flags |
| SwiftProcessor.SourceId | swift_io/samples/basic_packet_routing/src/processor.c:37-50 | the source id is 0 exactly for an empty buffer, otherwise 1 exactly when the first byte is 0xA0 and 2 else |
| SwiftProcessor.HeaderFor | swift_io/samples/basic_packet_routing/src/processor.c:53-62 | the header carries the source id, type DATA, the current sequence, reserved 0, and the first fragment's length while it fits in uint16_t |
| SwiftProcessor.HandleAsWritten | swift_io/samples/basic_packet_routing/src/processor.c:33-76 | the handler as written keeps the heap well formed and the 16-bit counter in range |
| SwiftProcessor.Handle | swift_io/samples/basic_packet_routing/src/processor.c:33-76 | the corrected handler keeps the heap well formed and the 16-bit counter in range |
| SwiftProcessor.AllocKeepsPayload | swift_io/samples/basic_packet_routing/src/processor.c:40 | allocating the header buffer leaves the payload and its chain untouched |
| SwiftProcessor.HandleOutcome | swift_io/samples/basic_packet_routing/src/processor.c:40-75 | an empty pool changes nothing, not even the counter; otherwise the header chain (header bytes, then the payload chain) is sent and sequence_counter moves on by one modulo 2^16 |
| SwiftProcessor.HandleBalanced | swift_io/samples/basic_packet_routing/src/processor.c:64-75 | with immediate sinks the corrected handler leaves every buffer as it found it |
| SwiftProcessor.HandleAsWrittenHeap | swift_io/samples/basic_packet_routing/src/processor.c:56-75 | with immediate sinks the as-written heap is the prepended chain itself |
| SwiftProcessor.HandleAsWrittenLeaks | swift_io/samples/basic_packet_routing/src/processor.c:66-75 | as written the header buffer stays live with one reference and a reference on the payload, so the payload outlives the framework's release |
| SwiftProcessor.Processor.constructor | swift_io/samples/basic_packet_routing/src/processor.c:31 | sequence_counter starts at 0 |
| SwiftProcessor.Processor.Handler | swift_io/samples/basic_packet_routing/src/processor.c:33-76 | the engine state and the counter become what the corrected Handle computes |
| SwiftValidator.ExpectedFirst | swift_io/samples/basic_packet_routing/src/validator.c:68 | the first content byte expected is 0xA0 exactly for sensor 1, otherwise 0xB0 |
| SwiftValidator.Integrity | swift_io/samples/basic_packet_routing/src/validator.c:28-80 | a failed size, source or type check refuses the packet with last_sequence untouched; otherwise last_sequence becomes the packet's sequence and the verdict is the content check alone |
| SwiftValidator.Step | swift_io/samples/basic_packet_routing/src/validator.c:82-124 | every call counts in packets_received (modulo 2^32), clears first_packet and keeps the counters within 32 bits |
| SwiftValidator.SuccessRateAsWritten | swift_io/samples/basic_packet_routing/src/validator.c:118-119 | the report's rate computed in uint32_t, as written |
| SwiftValidator.SequenceNeverDecides | swift_io/samples/basic_packet_routing/src/validator.c:53-61 | a sequence gap only warns: the verdict does not depend on last_sequence |
| SwiftValidator.ValidMeansHeaderOk | swift_io/samples/basic_packet_routing/src/validator.c:32-51 | a valid packet has the length its header announces, a known source id and a known packet type |
| SwiftValidator.ExactlyOneCounter | swift_io/samples/basic_packet_routing/src/validator.c:96-115 | exactly one of packets_validated and packets_failed goes up per call |
| SwiftValidator.ShortBufferFails | swift_io/samples/basic_packet_routing/src/validator.c:96-101 | a buffer shorter than a header fails and leaves last_sequence alone |
| SwiftValidator.CountsAddUp | swift_io/samples/basic_packet_routing/src/validator.c:106-115 | while nothing wraps, validated + failed counts the calls |
| SwiftValidator.CounterWrapReported | swift_io/samples/basic_packet_routing/src/validator.c:54-59 | the processor's 16-bit sequence is reported as a gap exactly when it wraps from 65535 to 0 |
| SwiftValidator.SuccessRateBounds | swift_io/samples/basic_packet_routing/src/validator.c:118-119 | the intended rate is at most 100, and 100 exactly when some packets were checked and none failed |
| SwiftValidator.SuccessRateAgrees | swift_io/samples/basic_packet_routing/src/validator.c:118-119 | while validated * 100 and the total fit in 32 bits, the rate as written is the intended one |
| SwiftValidator.SuccessRateWraps | swift_io/samples/basic_packet_routing/src/validator.c:119 | with 42949673 packets all valid the rate as written is 0 where 100 is meant |
| SwiftValidator.ProcessedChain | swift_io/samples/basic_packet_routing/src/processor.c:56-67 | the processor's chain starts with the 12 header bytes it wrote, followed by the untouched payload chain |
| SwiftValidator.ProcessedPacketVerdict | swift_io/samples/basic_packet_routing/src/validator.c:28-80 | a processed single-fragment packet is valid exactly when its payload is non-empty and starts with 0xA0 or 0xB0 |
| SwiftValidator.Validator.constructor | swift_io/samples/basic_packet_routing/src/validator.c:24-26 | counters start at zero, last_sequence at UINT32_MAX, first_packet set |
| SwiftValidator.Validator.Handle | swift_io/samples/basic_packet_routing/src/validator.c:82-124 | the statics become what Step computes, and the reported rate is the intended percentage, at most 100 |
| SwiftValidator.SuccessRate | swift_io/samples/basic_packet_routing/src/validator.c:118-119 | the intended rate is at most 100, and 100 when some packets were checked and none failed |
| SystemControl.EncodeCmd | swift_io/samples/router_sample/tests/test_router_tcp.py:308-311 | a ping command is three bytes, led by the command byte |
| SystemControl.EncodeResp | swift_io/samples/router_sample/src/modules/system_control.c:46-49 | a response is seven bytes, led by the command byte |
| SystemControl.DecodeResp | swift_io/samples/router_sample/tests/test_router_tcp.py:330 | unpacking '<BHI' gives fields within their widths and the first byte as the command |
| SystemControl.Reply | swift_io/samples/router_sample/src/modules/system_control.c:26-36 | a response is called for exactly when the payload is at least sizeof(struct ping_cmd) and its command is PING_CMD (both directions) |
| SystemControl.Handle | swift_io/samples/router_sample/src/modules/system_control.c:19-54 | the handler keeps the buffer heap well formed and ping_count within 32 bits |
| SystemControl.RespRoundTrip | swift_io/samples/router_sample/tests/test_router_tcp.py:330 | the test's unpacking of an encoded response gives the response back |
| SystemControl.PingEchoes | swift_io/samples/router_sample/src/modules/system_control.c:31-49 | a ping is answered with PING_CMD, the same sequence number and the uptime cut to 32 bits; any other command gets no answer |
| SystemControl.HandleOutcome | swift_io/samples/router_sample/src/modules/system_control.c:26-53 | no answer or an empty pool changes nothing; otherwise ping_count goes up by one and a fresh buffer holding exactly the encoded response is sent with the consuming send |
| SystemControl.HandleBalanced | swift_io/samples/router_sample/src/modules/system_control.c:38-53 | with immediate sinks the handler leaves every buffer and queue as it found them: the response is freed once all sinks have seen it |
| SystemControl.RouterTestPing | swift_io/samples/router_sample/tests/test_router_tcp.py:307-332 | the router test's ping 0x01 with sequence number 0x1234 is answered with PING_CMD and 0x1234 |
| SystemControl.SystemControl.constructor | swift_io/samples/router_sample/src/modules/system_control.c:17 | ping_count starts at 0 |
| SystemControl.SystemControl.Handler | swift_io/samples/router_sample/src/modules/system_control.c:19-54 | the engine's state and ping_count become what Handle computes, the connections stay |
| TcpClientDemo.CreatePacket | packet_io/samples/router_sample/tcp_client_demo.py:59-66 | a packet is built exactly when the id fits a byte and the length 16 bits (both directions); it is the version, the id, the length little-endian, then the payload |
| TcpClientDemo.ScanPacketsComplete | packet_io/samples/router_sample/tcp_client_demo.py:87-106 | every packet the offset loop returns is complete, and together they use no more bytes than the chunk holds |
| TcpClientDemo.ScanSkipsBadVersion | packet_io/samples/router_sample/tcp_client_demo.py:92-94 | a wrong version byte skips exactly one byte |
| TcpClientDemo.ScanStopsAtIncomplete | packet_io/samples/router_sample/tcp_client_demo.py:96-106 | an incomplete packet ends the parse |
| TcpClientDemo.ScanShift | packet_io/samples/router_sample/tcp_client_demo.py:87-106 | the offset loop never reads bytes in front of its offset |
| TcpClientDemo.ScanCreatePacket | packet_io/samples/router_sample/tcp_client_demo.py:59-106 | a chunk that starts with a created packet is parsed into that packet first, then the rest |
| TcpClientDemo.ReceivePackets | packet_io/samples/router_sample/tcp_client_demo.py:77-113 | the offset loop over one recv chunk returns exactly the packets Scan finds; nothing for a timeout, an error or b"" |
| TcpClientDemo.CountId | packet_io/samples/router_sample/tcp_client_demo.py:177-178 | the count of packets with an id is at most the number of packets |
| TcpClientDemo.CountIdAppend | packet_io/samples/router_sample/tcp_client_demo.py:177-178 | the count over two lists is the sum of their counts |
| TcpClientDemo.ReceiveTemperatureData | packet_io/samples/router_sample/tcp_client_demo.py:156-192 | the nested loops count exactly the complete PKT_ID_SENSOR_TEMP packets of the chunks received before the first error |
| TcpClientDemo.Scan | packet_io/samples/router_sample/tcp_client_demo.py:87-106 | every packet the offset loop returns has a size of the header plus its payload |
| TcpClientDemo.CountTemperature | packet_io/samples/router_sample/tcp_client_demo.py:164-185 | the inner offset loop counts exactly the complete PKT_ID_SENSOR_TEMP packets that Scan finds in the chunk |
| WeaveCore.Release | libs/weave/src/core.c:42-44 | releasing through the ops counts one release exactly when the ops have an unref callback, and changes nothing else |
| WeaveCore.DeliverTo | libs/weave/src/core.c:23-66 | -EINVAL with nothing done for a NULL sink, handler or pointer; a refusing ref callback's answer passed back with nothing done; otherwise 0 or -ENOBUFS, and an immediate sink that accepted has its handler called once with the pointer |
| WeaveCore.EmitFrom | libs/weave/src/core.c:82-93 | the delivery loop returns the successes so far plus at most one per remaining sink, and fails only when there are no ops |
| WeaveCore.EmitTo | libs/weave/src/core.c:70-98 | weave_source_emit: -EINVAL for a NULL source or pointer, otherwise a delivery count no larger than the number of connected sinks |
| WeaveCore.SendTo | libs/weave/src/core.c:100-108 | weave_sink_send: -EINVAL for a NULL sink, otherwise exactly one sink_deliver |
| WeaveCore.HandleEvent | libs/weave/src/core.c:123-133 | handling a dequeued event releases at most its own reference and leaves the queues alone |
| WeaveCore.DrainItems | libs/weave/src/core.c:122-137 | the drain loop counts at most one per event and takes no new reference |
| WeaveCore.Drain | libs/weave/src/core.c:110-140 | weave_process_messages: -EINVAL for a NULL queue; otherwise the queue ends empty and the count is at most the number of events it held |
| WeaveCore.DeliverBalanced | libs/weave/src/core.c:30-63 | with ops that both take and release, every reference a delivery takes is either released or held by a queued event |
| WeaveCore.EmitFromBalanced | libs/weave/src/core.c:82-93 | the same balance over the whole delivery loop |
| WeaveCore.EmitBalanced | libs/weave/src/core.c:70-98 | emitting from a source with paired ops leaves every reference taken either released or held in a queue |
| WeaveCore.DrainItemsCounts | libs/weave/src/core.c:122-137 | draining well-formed events counts each one, releases each held reference once and calls the handlers in queue order |
| WeaveCore.DrainBalanced | libs/weave/src/core.c:110-140 | draining a queue calls every event's handler in FIFO order, counts them all and keeps the balance |
| WeaveCore.AllDrained | libs/weave/src/core.c:110-140 | once every queue is empty, every reference taken has been released |
| WeaveCore.EmitImmediate | libs/weave/src/core.c:38-46 | to immediate sinks only, every sink is delivered, its handler called in list order, with one reference taken and released each |
| WeaveCore.NoOpsSingleSink | libs/weave/src/core.c:83-86 | a source without ops whose first sink accepts fails with -EINVAL instead of reaching a second sink |
| WeaveCore.Bus.constructor | libs/weave/src/core.c:149-160 | the bus starts with no reference taken, none released and no handler called |
| WeaveCore.Bus.SinkDeliver | libs/weave/src/core.c:23-66 | sink_deliver in place, as DeliverTo |
| WeaveCore.Bus.SourceEmit | libs/weave/src/core.c:70-98 | weave_source_emit in place, as EmitTo |
| WeaveCore.Bus.SinkSend | libs/weave/src/core.c:100-108 | weave_sink_send in place, as SendTo |
| WeaveCore.Bus.ProcessMessages | libs/weave/src/core.c:110-140 | weave_process_messages in place, as Drain |
| WeaveMessaging.Free | weave/subsys/weave/weave_core.c:26-39 | weave_free_context: the context is no longer live and nothing else changes |
| WeaveMessaging.Put | weave/subsys/weave/weave_core.c:47-60 | weave_context_put only ever removes contexts, and touches no queue |
| WeaveMessaging.Create | weave/subsys/weave/weave_core.c:69-92 | NULL exactly when the slab is exhausted, changing nothing; otherwise a new zeroed context with the given count, a request's result starting at -ETIMEDOUT |
| WeaveMessaging.ReleaseAll | weave/subsys/weave/weave_core.c:167-170 | releasing a context's references one by one only ever removes contexts |
| WeaveMessaging.QueueMessage | weave/subsys/weave/weave_core.c:155-173 | weave_queue_message leaves the queues' set alone and only ever removes contexts |
| WeaveMessaging.Enqueue | weave/subsys/weave/weave_core.c:188-236 | the context setup and queueing of weave_queue_async_message keep the slab's bookkeeping |
| WeaveMessaging.Setup | weave/subsys/weave/weave_core.c:102-145 | the set-up context keeps its kind, home, completion and result, and holds two references for a request and one for a signal |
| WeaveMessaging.Give | weave/subsys/weave/weave_core.c:402 | k_sem_give on a semaphore of limit 1 leaves it at 1 |
| WeaveMessaging.ProcessMessage | weave/subsys/weave/weave_core.c:368-429 | weave_process_message adds at most one handler run and changes no queue |
| WeaveMessaging.Pop | weave/subsys/weave/weave_core.c:444 | taking the oldest message off one queue changes no context |
| WeaveMessaging.Serve | weave/subsys/weave/weave_core.c:444-447 | the module thread takes exactly min(n, queue length) messages, oldest first, leaving the rest of its queue and every other queue as they were |
| WeaveMessaging.ProcessAll | weave/subsys/weave/weave_core.c:434-450 | weave_process_all_messages returns 0 and changes nothing for NULL or a module without a queue, otherwise empties the queue and returns how many messages it held |
| WeaveMessaging.Wait | weave/subsys/weave/weave_core.c:244-263 | the sender's wait changes only the contexts |
| WeaveMessaging.CallMethod | weave/subsys/weave/weave_core.c:269-320 | weave_call_method keeps the reference-count invariant on every path |
| WeaveMessaging.EmitFrom | weave/subsys/weave/weave_core.c:337-359 | the signal loop keeps the invariant and reaches at most the remaining handlers |
| WeaveMessaging.EmitSignal | weave/subsys/weave/weave_core.c:325-363 | weave_emit_signal keeps the invariant and returns 0 or -EINVAL |
| WeaveMessaging.ProcessMessageCtxs | weave/subsys/weave/weave_core.c:368-429 | processing a live context's message releases one reference of that context, freeing it with the last, and leaves every other context as it was |
| WeaveMessaging.PopQueued | weave/subsys/weave/weave_core.c:444 | taking the head off a queue does not change whether another context is queued |
| WeaveMessaging.ProcessHeadInv | weave/subsys/weave/weave_core.c:444-445 | taking the oldest message and processing it keeps the invariant that every live context's count is the number of its queue entries plus its waiting sender |
| WeaveMessaging.ServeStep | weave/subsys/weave/weave_core.c:444-447 | one message taken and processed, then the rest served |
| WeaveMessaging.ServeNone | weave/subsys/weave/weave_core.c:444 | serving nothing, or from an empty queue, changes nothing |
| WeaveMessaging.ServeInv | weave/subsys/weave/weave_core.c:444-447 | serving any number of messages keeps the invariant |
| WeaveMessaging.CreateFree | weave/subsys/weave/weave_core.c:200-211 | a context created and freed again leaves the live contexts as they were |
| WeaveMessaging.ReleaseAllFrees | weave/subsys/weave/weave_core.c:167-170 | releasing every reference of a context frees it and changes nothing else |
| WeaveMessaging.EnqueuedInv | weave/subsys/weave/weave_core.c:162-163 | a fresh context with the right count put at the tail of its queue keeps the invariant |
| WeaveMessaging.InvFrame | weave/subsys/weave/weave_core.c:223-230 | changing what a live context holds, but not its count or home, keeps the invariant |
| WeaveMessaging.EnqueueFailed | weave/subsys/weave/weave_core.c:200-236 | a failed enqueue leaves the live contexts and the queues as they were |
| WeaveMessaging.FullQueueFrees | weave/subsys/weave/weave_core.c:163-172 | queueing on a full queue returns -ENOMSG, frees the context and touches nothing else |
| WeaveMessaging.EnqueueQueued | weave/subsys/weave/weave_core.c:229-236 | a successful enqueue puts the new context with its count at the tail of its queue |
| WeaveMessaging.EnqueueInv | weave/subsys/weave/weave_core.c:188-236 | enqueueing keeps the invariant: a queued signal is held by its entry alone, a queued request by its entry and its sender |
| WeaveMessaging.ReleaseHeldInv | weave/subsys/weave/weave_core.c:248-262 | the sender releasing its reference leaves the invariant with no sender |
| WeaveMessaging.WaitInv | weave/subsys/weave/weave_core.c:244-263 | the sender's wait and release keeps the invariant, with no sender left |
| WeaveMessaging.PutFreesLast | weave/subsys/weave/weave_core.c:47-60 | weave_context_put frees the context and reports true exactly when it held the last reference; NULL gives false and changes nothing |
| WeaveMessaging.EnqueueOutcome | weave/subsys/weave/weave_core.c:188-236 | a request is queued with two references and result -ETIMEDOUT, a signal with one; an exhausted slab gives -ENOMEM and changes nothing; an exhausted data heap gives -ENOMEM and a full queue -ENOMSG, the context freed in both cases |
| WeaveMessaging.CallRejected | weave/subsys/weave/weave_core.c:275-307 | a call whose checks fail returns -EINVAL and changes nothing |
| WeaveMessaging.DirectCall | weave/subsys/weave/weave_core.c:309-314 | a call to a module without a queue runs its handler once and returns the handler's result |
| WeaveMessaging.QueuedCallServed | weave/subsys/weave/weave_core.c:316-319 | a queued call served before the wait runs the handler once on a copy of the request, or gets -ENOTSUP without a handler; the result comes back, the reply is copied only on a zero result, and the context is freed |
| WeaveMessaging.CallQueuedPath | weave/subsys/weave/weave_core.c:316-319 | a queued call is the enqueue, the receiver serving, and the wait |
| WeaveMessaging.ServedThenWait | weave/subsys/weave/weave_core.c:244-263 | a request alone in its queue, served and then waited for, yields the handler's result and frees the context |
| WeaveMessaging.CallEnqueued | weave/subsys/weave/weave_core.c:317-319 | the queued request sits alone in the receiver's queue with two references |
| WeaveMessaging.ServeSingle | weave/subsys/weave/weave_core.c:444-447 | serving a queue that holds one message processes that message |
| WeaveMessaging.QueuedCallTimesOut | weave/subsys/weave/weave_core.c:244-250 | a call not served before the wait gets -ETIMEDOUT with nothing copied; the context stays queued with the receiver's reference alone |
| WeaveMessaging.DirectRuns | weave/subsys/weave/weave_core.c:337-350 | the handler runs a signal makes at once never outnumber its handlers |
| WeaveMessaging.EmitDirect | weave/subsys/weave/weave_core.c:337-350 | a signal whose handlers belong to modules without queues runs every handler that has a module, in wiring order, skips the others and queues nothing |
| WeaveMessaging.EmitResult | weave/subsys/weave/weave_core.c:325-363 | weave_emit_signal returns 0 for any signal however many handlers it reached, and -EINVAL, changing nothing, only for NULL |
| WeaveMessaging.DrainedFreesAll | weave/subsys/weave/weave_core.c:434-450 | once every queue has been drained, no context is live: every reference taken was released |
| WeaveMessaging.ProcessAllInv | weave/subsys/weave/weave_core.c:434-450 | weave_process_all_messages empties the module's queue and keeps the invariant |
| WeaveMessaging.EmitSkip | weave/subsys/weave/weave_core.c:340-343 | a handler without a module is skipped |
| WeaveMessaging.EmitRun | weave/subsys/weave/weave_core.c:346-350 | a handler of a module without a queue runs at once and counts as reached |
| WeaveMessaging.EmitQueued | weave/subsys/weave/weave_core.c:353-358 | a handler of a module with a queue is sent a signal message and counts as reached if it was queued |
| WeaveMessaging.Weave.constructor | weave/subsys/weave/weave_core.c:15-17 | a slab with no live context and all queues empty satisfies the invariant |
| WeaveMessaging.Weave.ContextPut | weave/subsys/weave/weave_core.c:47-60 | weave_context_put in place, as Put |
| WeaveMessaging.Weave.QueueMsg | weave/subsys/weave/weave_core.c:155-173 | weave_queue_message in place, releasing the references one at a time on a full queue, as QueueMessage |
| WeaveMessaging.Weave.QueueAsync | weave/subsys/weave/weave_core.c:188-236 | weave_queue_async_message up to the queueing, in place, as Enqueue |
| WeaveMessaging.Weave.SetupSteps | weave/subsys/weave/weave_core.c:207-230 | the field-by-field setup of a fresh context gives Setup's context |
| WeaveMessaging.Weave.ProcessMsg | weave/subsys/weave/weave_core.c:368-429 | weave_process_message in place, as ProcessMessage |
| WeaveMessaging.Weave.ProcessAllMessages | weave/subsys/weave/weave_core.c:434-450 | the drain loop in place, as ProcessAll |
| WeaveMessaging.Weave.Receive | weave/subsys/weave/weave_core.c:444-447 | the module thread taking up to n messages, as Serve |
| WeaveMessaging.Weave.ReceiveOne | weave/subsys/weave/weave_core.c:444-445 | k_msgq_get of the oldest message and its processing |
| WeaveMessaging.Weave.WaitReply | weave/subsys/weave/weave_core.c:244-263 | the sender's wait and release in place, as Wait |
| WeaveMessaging.Weave.Call | weave/subsys/weave/weave_core.c:269-320 | weave_call_method in place, as CallMethod |
| WeaveMessaging.Weave.Emit | weave/subsys/weave/weave_core.c:325-363 | weave_emit_signal in place, as EmitSignal |
| WeaveMessaging.Weave.EmitTo | weave/subsys/weave/weave_core.c:337-359 | one pass of the signal loop: the handler skipped, run at once or sent a queued signal |
| WeaveMethod.Give | libs/weave/src/method.c:108 | k_sem_give on a completion semaphore of limit 1 makes it available, at 1 |
| WeaveMethod.AsyncInit | libs/weave/src/method.c:67-71 | a fresh asynchronous context has result 0 and its completion not yet given |
| WeaveMethod.DispatchCtx | libs/weave/src/method.c:100-118 | dispatch keeps the context's pointers and always gives the completion |
| WeaveMethod.WaitCtx | libs/weave/src/method.c:84-98 | a wait keeps the context's pointers and result |
| WeaveMethod.SizeRules | libs/weave/src/method.c:21-27 | sizes are accepted exactly when each is at least the expected size or the expected size is 0; a short request for a non-zero expectation is -EINVAL |
| WeaveMethod.AcceptedCallReturnsHandler | libs/weave/src/method.c:29-49 | a synchronous call that passes the checks returns exactly what the handler returns |
| WeaveMethod.AsyncRoundTrip | libs/weave/src/method.c:52-118 | a fresh context is not ready (-EAGAIN); dispatch makes it ready with the handler's result; the first wait collects it and a second wait finds the semaphore taken again |
| WeaveMethod.DispatchWithoutMethod | libs/weave/src/method.c:105-111 | dispatch without a method still completes the call, with -EINVAL |
| WeaveMethod.Context.constructor | libs/weave/src/method.c:67-71 | a caller's context starts with no pointers, result 0 and no completion |
| WeaveMethod.Runtime.constructor | libs/weave/src/method.c:100-118 | no handler has run yet and no call waits in a queue |
| WeaveMethod.Runtime.Dispatch | libs/weave/src/method.c:100-118 | weave_method_dispatch in place: a NULL context is ignored; otherwise the context ends as DispatchCtx says, and the handler runs once exactly when there is a method |
| WeaveMethod.Runtime.CallUnchecked | libs/weave/src/method.c:14-50 | the result is -EINVAL for a NULL method or a short size, and otherwise the handler's; the handler runs exactly once on an accepted call and never on a refused one |
| WeaveMethod.Runtime.CallAsync | libs/weave/src/method.c:52-82 | -EINVAL exactly for a NULL method or context or a short size, changing nothing; otherwise 0, and the context is dispatched at once for an immediate sink or queued for the method's thread |
| WeaveMethod.Runtime.ProcessNext | libs/weave/src/method.c:100-118 | the queue's thread takes the oldest waiting call, if any, and dispatches it, running its handler once |
| WeaveMethod.Wait | libs/weave/src/method.c:84-98 | weave_method_wait: -EINVAL for NULL, otherwise as WaitCtx |
| WeaveObservable.Initial | libs/weave/include/weave/observable.h:129-139 | a defined observable holds a value of its declared size, its semaphore free and no publish under way |
| WeaveObservable.Claim | src/observable.c:15-26 | a claim with K_NO_WAIT succeeds exactly when the semaphore is free, and leaves it taken and the value unchanged |
| WeaveObservable.Finish | src/observable.c:28-33 | finish gives the semaphore back and changes nothing else |
| WeaveObservable.Validate | src/observable.c:64-75 | without a validator every value is valid (0) |
| WeaveObservable.Publishing | src/observable.c:47-48 | while a publish is under way the semaphore is free and the flag set, the value unchanged |
| WeaveObservable.Publish | src/observable.c:35-62 | -EBUSY, changing nothing, while a publish is under way; otherwise the semaphore ends free, the flag clear, the value unchanged, and the result is how many observers were reached, at most the number connected |
| WeaveObservable.Set | src/observable.c:79-104 | a set that returns keeps the observable well sized and the wiring between its sinks intact |
| WeaveObservable.Get | src/observable.c:106-122 | a successful get yields a value of the declared size |
| WeaveObservable.ClaimExclusive | src/observable.c:15-33 | while the semaphore is held a second claim fails; after finish it succeeds |
| WeaveObservable.RejectedSetUnchanged | src/observable.c:90-95 | a value the validator refuses is reported with the validator's error, and neither the value nor anything in the core changes: no handler runs and no observer is told |
| WeaveObservable.RecursionGuard | src/observable.c:41-45 | while a publish is under way, a set is refused with -EBUSY before the validator is asked, and a nested publish is refused too; neither changes anything |
| WeaveObservable.AcceptedSetStores | src/observable.c:97-103 | an accepted set on a free observable stores the first size bytes of the input, leaves the semaphore free and the flag clear, and returns the observers reached |
| WeaveObservable.SetGetRoundTrip | src/observable.c:79-122 | a get after an accepted set returns the value that was set |
| WeaveObservable.PublishSkipsValidator | src/observable.c:35-62 | publish never asks the validator: its outcome is the same whichever validator is attached |
| WeaveObservable.GetChangesNothing | src/observable.c:106-122 | a get on a free observable returns its value and leaves it as it was |
| WeaveObservable.Observable.constructor | libs/weave/include/weave/observable.h:129-139 | the observable starts as Initial says |
| WeaveObservable.Observable.ClaimValue | src/observable.c:15-26 | weave_observable_claim in place, as Claim |
| WeaveObservable.Observable.FinishValue | src/observable.c:28-33 | weave_observable_finish in place, as Finish |
| WeaveObservable.Observable.PublishValue | src/observable.c:35-62 | weave_observable_publish in place, as Publish, on the observable and the core |
| WeaveObservable.Observable.SetValue | src/observable.c:79-104 | weave_observable_set_unchecked in place, as Set |
| WeaveObservable.Observable.GetValue | src/observable.c:106-122 | weave_observable_get_unchecked in place: the observable ends as it started and the answer is Get's |
| WeaveObservableLocked.Set | libs/weave/src/observable.c:13-45 | the spinlock variant's set keeps the observable's wiring intact |
| WeaveObservableLocked.RejectedSetUnchanged | libs/weave/src/observable.c:21-28 | a refused value is reported with the validator's error before anything is copied or anyone told |
| WeaveObservableLocked.SetGetRoundTrip | libs/weave/src/observable.c:13-59 | a get after an accepted set returns the first size bytes of what was set |
| WeaveObservableLocked.AgreesWithSemaphoreVariant | libs/weave/src/observable.c:13-45 | on an observable not claimed and not publishing, the spinlock and semaphore implementations agree on the return value, the stored value and the notifications, in order |
| WeaveObservableLocked.LockedObservable.constructor | libs/weave/include/weave/observable.h:129-139 | the observable over its configuration, core and initial value |
| WeaveObservableLocked.LockedObservable.SetValue | libs/weave/src/observable.c:13-45 | the spinlock set in place, as WeaveObservableLocked.Set |
| WeaveObservableLocked.LockedObservable.GetValue | libs/weave/src/observable.c:47-59 | the spinlock get, as its specification function says |
| WeavePacket.EncodeMeta | libs/weave/include/weave/packet.h:54-63 | the packed 8-byte metadata record puts the packet id first and the client id second |
| WeavePacket.DecodeMeta | libs/weave/include/weave/packet.h:54-63 | reading the record back from user data yields fields within their widths (u8, u8, u16, u32) |
| WeavePacket.DecodeEncodeMeta | libs/weave/include/weave/packet.h:54-63 | decoding the packed record gives back the metadata that was packed, whatever follows it in the user-data area |
| WeavePacket.MetaIsZeroAllZero | libs/weave/include/weave/packet.h:254-260 | the first-byte-zero-and-rest-equal-to-it test holds exactly when all eight record bytes are zero |
| WeavePacket.GetMeta | libs/weave/include/weave/packet.h:273-283 | metadata exists exactly when the buffer is non-NULL, its user data can hold the record and the record is not all zeros; it is then the decoded record |
| WeavePacket.GetMetaOfEncoded | libs/weave/include/weave/packet.h:273-283 | metadata that was written is read back, except an all-zero record, which reads as missing |
| WeavePacket.Width | libs/weave/include/weave/packet.h:54-63 | every field lies inside the 8-byte record |
| WeavePacket.Get | libs/weave/include/weave/packet.h:297-376 | a getter fails with -EINVAL exactly when there is no metadata or the out pointer is NULL, and otherwise returns that field of the record |
| WeavePacket.Set | libs/weave/include/weave/packet.h:286-387 | a setter returns 0 or -EINVAL, -EINVAL exactly when there is no metadata and then changes nothing; it only ever touches user data |
| WeavePacket.SetChangesOneField | libs/weave/include/weave/packet.h:286-387 | a successful set changes exactly that one field of the record, nothing else of the buffer and no other buffer |
| WeavePacket.SetThenGet | libs/weave/include/weave/packet.h:286-376 | a get after a set returns the value set, while the record is still not all zero |
| WeavePacket.SetIdZeroErasesMeta | libs/weave/include/weave/packet.h:273-294 | setting the id to 0 on a record whose other fields are zero makes later accessors see no metadata |
| WeavePacket.PacketRef | src/packet.c:27-48 | a sink with a filter other than ID_ANY refuses (-EACCES, no reference) exactly a packet whose metadata carries a different id that is not ID_ANY; anything else gains one reference |
| WeavePacket.PacketRefUnref | src/packet.c:27-56 | a reference taken through the filter and released again leaves all buffers as they were |
| WeavePacket.PacketPool.constructor | libs/weave/include/weave/packet.h:85-91 | a pool starts with its counter at 0 |
| WeavePacket.AllocWithId | src/packet.c:68-110 | NULL exactly without a pool or when the pool is exhausted, changing nothing; otherwise one new buffer with one reference, and when the user data holds the record: the id, client 0, the old counter cut to 16 bits, the ticks cut to 32 bits, and the 32-bit counter advanced |
| WeavePacket.Alloc | src/packet.c:81-84 | a packet allocated without an id carries ID_ANY and readable metadata |
| WeavePacket.SuccessiveCounters | src/packet.c:73 | two allocations in a row get distinct buffers and consecutive counters modulo 2^16 |
| WeavePacket.AllocWithIdFrom | src/packet.c:86-110 | the pool counter is advanced in place and the heap changed exactly as AllocWithId says; a NULL pool gives NULL and changes nothing |
| WeavePacket.SetField | libs/weave/include/weave/packet.h:286-387 | the setter applied in place, leaving the heap exactly as Set says |
| WeavePacket.Send | libs/weave/include/weave/packet.h:223-247 | the sinks are handed the chain as it is; send then drops the caller's reference, send_ref keeps it |
| WeaveProtocol.HeaderFor | libs/weave/samples/packet_routing/src/protocol.c:73-98 | the header built for a packet fits the packed 14-byte layout: u8 id, reserved, u16 counter, u16 length, u64 nanoseconds |
| WeaveProtocol.Outbound | libs/weave/samples/packet_routing/src/protocol.c:49-134 | outbound_handler keeps the heap well formed, hands at most one frame to the outbound source and keeps the header pool's counter within 32 bits |
| WeaveProtocol.OutboundBalanced | libs/weave/samples/packet_routing/src/protocol.c:60-130 | on every path, the no-buffer, no-id and forwarding paths alike, every buffer that existed before the call exists afterwards unchanged |
| WeaveProtocol.OutboundFrame | libs/weave/samples/packet_routing/src/protocol.c:66-130 | a packet with an id is forwarded as exactly one chain, the header followed by the payload unchanged, with the metadata's id and counter, and with content_length equal to the payload length whenever that fits in 16 bits; a packet without an id is not forwarded |
| WeaveProtocol.OutboundReadBack | libs/weave/samples/packet_routing/src/protocol.c:93-130 | the forwarded bytes are read by the Python client as one packet with the same id, counter and payload, leaving the stream just after it |
| WeaveProtocol.Inbound | libs/weave/samples/packet_routing/src/protocol.c:137-174 | inbound_handler keeps the heap well formed and neither allocates nor frees a buffer |
| WeaveProtocol.InboundRestores | libs/weave/samples/packet_routing/src/protocol.c:150-173 | a received header followed by its payload comes out with the header's id and counter in the metadata, only the payload as data and the caller's reference count kept, and that payload is forwarded |
| WeaveProtocol.InboundShort | libs/weave/samples/packet_routing/src/protocol.c:144-147 | a buffer shorter than the 14-byte header is left alone and nothing is forwarded |
| WeaveProtocol.Protocol.constructor | libs/weave/samples/packet_routing/src/protocol.c:28 | the protocol module over its own header pool, whose user data holds the metadata record |
| WeaveProtocol.Protocol.OutboundHandler | libs/weave/samples/packet_routing/src/protocol.c:49-134 | outbound_handler in place: the heap, the frames sent and the pool counter end exactly as Outbound says |
| WeaveProtocol.Protocol.ChainAndSend | libs/weave/samples/packet_routing/src/protocol.c:93-130 | header written, payload referenced and linked after it, then the head sent and released: the state is exactly that sequence of buffer operations |
| WeaveProtocol.Protocol.InboundHandler | libs/weave/samples/packet_routing/src/protocol.c:137-174 | inbound_handler in place, exactly as Inbound says |
| WeaveProtocol.Protocol.StampMeta | libs/weave/samples/packet_routing/src/protocol.c:153-163 | the three metadata writes of the inbound path in source order, nothing sent |
| WeaveWiring.Rewired | weave/subsys/weave/weave_core.c:474 | wiring a port changes only its target, never its declared request and reply sizes |
| WeaveWiring.Resolve | weave/subsys/weave/weave_core.c:275-281 | the port a caller passes keeps its sizes and has a target method exactly when it was wired |
| WeaveWiring.LastForMeans | weave/subsys/weave/weave_core.c:458-478 | a port ends wired exactly when some connection with both ends names it, and then to the method of the last such connection |
| WeaveWiring.WiredSizesMatch | weave/subsys/weave/weave_core.c:459-474 | without a size clash, every wired port's method has the port's own request and reply sizes |
| WeaveWiring.HandlersForAppend | weave/subsys/weave/weave_core.c:481-488 | handlers are appended to a signal in connection order |
| WeaveWiring.HandlersForMembers | weave/subsys/weave/weave_core.c:481-488 | a handler is on a signal's list exactly when some connection with both ends links it to that signal |
| WeaveWiring.ResolvedCallFits | weave/subsys/weave/weave_core.c:289-301 | once wiring succeeded from unwired ports, a call weave_call_method accepts on a wired port carries a request, and any reply buffer, at least as large as the method expects |
| WeaveWiring.Registry.constructor | weave/include/zephyr_io/weave/weave.h:210-239 | the registry of declared ports and signals, as defined |
| WeaveWiring.Registry.WireConnections | weave/subsys/weave/weave_core.c:455-491 | 0 exactly when no method connection clashes in size, every named port then pointed at its last connection's method and every linked handler appended in order; otherwise -EINVAL at the first clash, ports wired up to it, and no signal touched |
| WeaveWiring.Registry.Init | weave/subsys/weave/weave_core.c:496-517 | weave_init returns the wiring's result and leaves the signals alone when it fails |
| ZephyrIoFixtures.FirstTcpAgrees | scripts/pylib/pytest-zephyr-io-harness/src/zephyr_io_harness/fixtures.py:41-49 | this plugin's loop over the fixtures finds the same configuration as the test harness's search, for every list |
| ZephyrIoFixtures.ParseTcpFixtureAgrees | scripts/pylib/pytest-zephyr-io-harness/src/zephyr_io_harness/fixtures.py:28-49 | its parse_tcp_fixture agrees with the test harness's on every input, None included |
| ZephyrIoFixtures.ParseTcpFixtureFirst | scripts/pylib/pytest-zephyr-io-harness/src/zephyr_io_harness/fixtures.py:28-49 | it returns the first tcp: entry with three parts and an integer port, and a value exactly when there is one |
| ZephyrIoFixtures.ConnectionTimeoutPriority | scripts/pylib/pytest-zephyr-io-harness/src/zephyr_io_harness/fixtures.py:99-103 | a marker argument beats --tcp-timeout, which beats 10 seconds |
| ZephyrIoFixtures.FirstTcp | scripts/pylib/pytest-zephyr-io-harness/src/zephyr_io_harness/fixtures.py:41-49 | the loop returns only a configuration some tcp: entry parses to |
| ZephyrIoFixtures.ParseTcpFixture | scripts/pylib/pytest-zephyr-io-harness/src/zephyr_io_harness/fixtures.py:28-49 | a configuration found comes from some tcp: entry of the list that parses to it |
| ZephyrIoFixtures.TcpConfigFor | scripts/pylib/pytest-zephyr-io-harness/src/zephyr_io_harness/fixtures.py:52-73 | this plugin's tcp_config skips exactly when the test harness's parser finds nothing, and otherwise yields the test harness's tcp_config |
| ZephyrIoFixtures.ConnectionTimeout | scripts/pylib/pytest-zephyr-io-harness/src/zephyr_io_harness/fixtures.py:99-103 | the timeout is the marker's first argument, --tcp-timeout or 10 seconds |

## Left out

- Sockets, threads and the network are not modelled. Received data is a parameter: Python receive threads read chunk sequences, and TCP and UDP peers are byte sequences. The HTTP requests, the socket timeouts and the requests session are left out for the same reason.
- Clocks are parameters: uptime, ticks, the cycle-to-nanosecond conversions, `k_uptime_get_32` timestamps and the test's wait loops. Only the non-HIRES 8-byte packet metadata is modelled. Its 64-bit cycle variant is left out.
- Concurrency is not modelled: spinlocks, `k_sem` blocking, atomics as such, and priorities. Every operation runs to completion alone. A `K_FOREVER` wait that would block on another holder is an explicit outcome rather than a wait.
- Pool and heap exhaustion, claim and notify results, and publish results are inputs to the model, because the allocators and zbus are foreign code.
- The timeout fall-through of `packet_source_send` is left out: every put is `K_NO_WAIT`, so waiting for room in a queue is not modelled.
- Floating point is left out: the settings table's ST_F32 and ST_F64 comparisons, and the sensor sample's `gain`. A float register holds its IEEE bit pattern, and range checks on it are not modelled.
- Log output, LOG_* text and `flags_str` are left out, as are the shell commands, `settings_dump` and the `main.c` demos.
- The stack-allocation heuristic of `swift_io_connection_add` is left out, because it depends on the running thread's stack bounds.
- swift_io's delivery engine, `swift_io.c`, is not part of this model. The Flow model stands in for it in SwiftProcessor and SystemControl.
- The flow metadata header `flow_buf.h` is not part of this model. The router framework header that `packet_router.c` includes is not part of this model either. The route and router records follow the fields the `.c` reads.
- `packet_io.h` in the same tree declares different structs from those `packet_io.c` uses. The model follows `packet_io.c`.
- The sensor ids SOURCE_ID_SENSOR1 and SOURCE_ID_SENSOR2 are not defined in the flow sample's `sensors.h`. The values 1 and 2 of the weave sample are used.
- The inbound PKT_ID_INVALID check of the IoTSense handler is unreachable once the header has validated, so it has no separate outcome in the model.
- IotsenseRouter.AddHeader: the payload length is taken from the first fragment only, as in the source. A multi-fragment payload therefore fails validation downstream. This is stated as a lemma, not corrected.
- WeaveMethod.Runtime.CallUnchecked: a synchronous call to a method with a queue is modelled as dispatched before the call returns. The thread that would run the queue is left out.
- WeaveMethod.Runtime.Dispatch: what the user handler writes through the response pointer is not modelled, only its result code.
- WeaveMessaging.Weave.Call: the handler's writes into its reply buffer are not modelled, only the sizes and result codes.
- WeaveObservable.Set: returns None where the `K_FOREVER` claim would wait for another holder, instead of waiting.
- WeaveWiring.Registry.Init: logging the registered modules is left out.
- SettingsTable.Table.SettingsRead: a custom area's read callback is a function of the request. The bytes it writes into the caller's buffer are not modelled.
- SettingsTable.TopAreaNeverClashes: this lemma records rather than corrects that `validate_area_addresses` cuts an area end of 0x10000 to 0 in a uint16_t. No shipped area reaches the top, so it is not listed as a finding.
- `setting_reg_read` does not check read permission, and the bulk `settings_write` of the registers sample consults no validator. Both are modelled as written (SettingsRegistersSample.BulkWriteSkipsValidator).
- SettingsRegisters.Settings.Register: requires each group to fit inside its observable's struct (GroupFits). GroupFits excludes the groups that are longer than their struct. For such a group the source accepts a register offset past the end of the struct: `obs->size - offset` wraps in `size_t` (samples/settings_registers/src/settings.c:150 and 179), the group's range becomes the limit, and the bulk read or write `memcpy` (settings.c:159 and 188) runs past the struct.
- RegisterMapper: several things are left out.
  - `user_data` of `reg_foreach` is folded into the callback.
  - The residual bytes of the `reg_value` union are not modelled.
  - The commit's `notify_count` exists only for logging and is left out.
  - The observers a notification reaches are left out.
  - `register_mapper_init` only maps a failed overlap check to -EINVAL, and is left out.
  - Duplicate addresses are excluded by the sorted-table requirement that the binary search needs.
- RegisterMapper.Mapper.BlockWriteRegister: like the source, it does not check that a block is open.
- DeviceConfig: the timer, the `k_poll` loop, the sensor thread and `uart_handler.c` are left out. Padding bytes of the channel messages are zero. The motor's current comes from the unclamped speed, as in the source (DeviceConfig.HandledTwice).
- The link-time sort of register mappings by name relies on hex addresses of the same width. The model takes the sorted table as given.
- SensorRpc: the sensor thread's poll loop, the timer callback and `sensor_stop` are left out.
- Flow: the CONFIG_FLOW_STATS getters and reset are left out. So are the tests' expectations that rely on `src->packet_id`, which `flow.c` never sets.
- HarnessFlash: `FlashDevice.flash` runs a subprocess and is left out. The lookup of `west` on PATH is a parameter.
- HarnessTcp.Connect: the 0.2 s pause between tries is counted, not timed.
- The twister fixtures that yield devices, and pytest option registration, are left out.
- The send helpers `send_get_status` and the demo's LED senders only write command bytes to a socket, and are left out.
- Flow: `flow.h` and `flow.c` disagree on the send and deliver names.
  - `flow.h` (flow/include/zephyr_io/flow/flow.h:357-375, 415-438) documents `flow_source_send` and `flow_sink_deliver` as non-consuming. It declares `flow_source_send_consume` and `flow_sink_deliver_consume` (flow.h:399, 463) as the consuming variants.
  - `flow.c` defines no `_consume` function. It has the non-consuming `flow_sink_deliver_ref` and `flow_source_send_ref` (flow/subsys/flow/flow.c:94, 199-207) and consuming `flow_sink_deliver` and `flow_source_send` (flow.c:151-160, 209-236).
  - The model follows `flow.c`: Flow.DeliverRef and Flow.SendRef do not consume, and Flow.Deliver and Flow.Send do (Flow.SendConsumes, Flow.DeliverConsumes). Flow.SendConsumes therefore contradicts the comment in `flow.h`.
  - The router sample's calls to `flow_sink_deliver_consume` and `flow_source_send_consume` (flow/samples/router_sample/src/protocols/iotsense_router.c:144, 169) are modelled as the consuming Flow.Deliver and Flow.Send, which is what the header promises for those names.
  - The tests are split. flow/tests/subsys/flow/unit_test/src/main.c:410-412 expects `flow_source_send` to consume. flow/tests/subsys/flow/integration/src/main.c:356-357 and flow/tests/subsys/flow/runtime_test/src/main.c:133-134 release the buffer again after the send, as `flow.h` describes.
- Flow.EventHandler: handlers are modelled as not releasing the buffer they are given, as `flow.h` asks of them. The -EFAULT return for a buffer whose reference count is 0 after the handler (flow.c:82-87) therefore cannot arise in the model. A missing handler (-EINVAL) is modelled.
- NetState.Net.Emit: the heap is left unchanged. `weave_source_emit` takes one reference per accepting sink (libs/weave/src/core.c:31-36). A queued sink holds it until `weave_process_messages` releases it (core.c:48-55, 110-130), and an immediate sink releases it after its handler (core.c:38-45). These per-sink references are not shown in the packet heap of this model. WeaveCore.EmitBalanced and WeaveCore.EmitImmediate state that accounting.
- WeavePacket.Send: inherits the heap of NetState.Net.Emit, so the per-sink references held by queued sinks are not shown.
- WeaveProtocol.OutboundBalanced: the balance is over the heap of NetState.Net.Emit, which leaves out the references held by queued sinks until they are processed.
- WeaveProtocol.Protocol.ChainAndSend: emits through NetState.Net.Emit, so the references queued sinks hold are not shown in its new heap.
- PyText.PyInt: accepts ASCII decimal digits only. Python's `int()` also accepts the other Unicode decimal digits.
- PyText.Strip: strips ASCII whitespace only, where Python's `str.strip()` strips all Unicode whitespace.
- PyText.Lower: lower-cases ASCII letters only, where Python's `str.lower()` maps all Unicode letters.
- HarnessFlash: paths are kept as the strings given. The `Path(...)` and `str(...)` round trip (scripts/pylib/pytest-test-harness/src/test_harness/fixtures/flash.py:65, 79-88), which normalises separators and drops a trailing slash, is left out.

## Findings

| source | as written | input that shows it | evidently intended | confidence | as-written member | corrected member |
|---|---|---|---|---|---|---|
| flow/samples/router_sample/src/protocols/iotsense_router.c:144 | the inbound sink handler, which only borrows its buffer, passes it to `flow_sink_deliver_consume`, which releases a reference the handler does not own | a server buffer with one reference, routed to an immediate application sink | deliver without consuming (`flow_sink_deliver_ref`, the non-consuming name that `flow.c` defines), so the buffer is released once, by its owner | not executed | IotsenseRouter.InboundAsWrittenDoubleRelease | IotsenseRouter.InboundReleasedOnce |
| flow/samples/router_sample/src/protocols/iotsense_router.c:159-169 | the outbound handler chains the borrowed payload behind the header without taking a reference, then releases it on failure or through the consuming send | a sensor buffer with one reference sent to a network source with no connections | take a reference before chaining and leave the caller's reference alone | not executed | IotsenseRouter.OutboundAsWrittenDoubleRelease | IotsenseRouter.OutboundReleasedOnce |
| flow/samples/basic_packet_routing/src/processor.c:59-63 | when the payload carries no packet id, the handler returns without releasing the header buffer it allocated | a payload whose user data has no packet id | release the header buffer before returning | not executed | FlowProcessor.OutboundAsWrittenLeaks | FlowProcessor.OutboundNoIdReleases |
| flow/samples/basic_packet_routing/src/processor.c:118-120 | the inbound handler sends `buf->frags` with `flow_source_send`, which `flow.c` defines as consuming, releasing a reference that belongs to the chain. `flow.h` documents the same name as non-consuming, so the defect is in the sample under `flow.c` and in `flow.c` under `flow.h` | a received chain whose payload fragment is held only by the chain, forwarded to immediate validators | send without consuming (`flow_source_send_ref`), so the payload is freed once with the chain | not executed | FlowProcessor.InboundAsWrittenUseAfterFree | FlowProcessor.InboundReleasedOnce |
| swift_io/samples/basic_packet_routing/src/processor.c:66-75 | the header buffer is sent with the non-consuming `swift_io_source_send` and never released, so it and the payload reference it holds stay allocated | any sensor packet handled with immediate sinks | send with the consuming variant, or release the header after sending | not executed | SwiftProcessor.HandleAsWrittenLeaks | SwiftProcessor.HandleBalanced |
| swift_io/samples/basic_packet_routing/src/validator.c:118-119 | `packets_validated * 100` is computed in uint32_t and wraps | 42949673 packets validated and 0 failed gives a rate of 0 | the percentage of valid packets, 100 here | not executed | SwiftValidator.SuccessRateWraps | SwiftValidator.SuccessRateBounds |
| register_mapper/subsys/register_mapper/register_mapper.c:263-280 | the last byte address of each register is kept in a uint16_t, so a register that reaches the top of the address space wraps its end below its start | a U32 register at 0xFFFE and a U8 register at 0xFFFF pass the overlap check | compare the ranges without wrapping, so every overlapping pair is reported | not executed | RegisterMapper.OverlapMissedAtTop | RegisterMapper.Mapper.ValidateNoOverlaps |
