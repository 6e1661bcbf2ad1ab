# BLE library core, modelled in Dafny

This project models four stateful pieces of an Android Bluetooth Low Energy
library and its demo app:

- **The chunked write engine** (`WriteRequest`). `executeEntity` cuts a
  payload into packets of `packLength` bytes. With `lastPackComplete` the
  last packet is zero-padded; without it the packet is truncated. Each packet
  goes to the single-packet write. Progress is reported after every packet
  that is issued. The run stops on the cooperative cancel flag, or on a failed
  write when a callback is set. It ends in exactly one of cancel, fail and
  success.
- **Connection bookkeeping, characteristic routing and the notification
  sequencer** (`BleRequestImpl`). This covers:
  - the per-address link table, the connected list and the write/read
    characteristic tables;
  - the connect timeouts posted to the `Handler`;
  - the notify queue with its cursor;
  - the inbound GATT events `onConnectionStateChange`,
    `onServicesDiscovered` and `onDescriptorWrite`, as explicit methods.
- **The handler registry** (`Rproxy`). It maps a request class to the
  instance named by its `@Implement` annotation.
- **The demo's device list** (`LeDeviceListAdapter`). It is an ordered list.
  `addDevice` de-duplicates by address; `addDevices` de-duplicates by object.

The Android stack is an oracle throughout. Each of the following is a
parameter or a constant function field:

- whether an adapter exists, `checkBluetoothAddress`, and whether
  `getRemoteDevice` finds a device;
- what `connectGatt` returns and whether a write/read/MTU/RSSI request is
  issued;
- the services a link reports;
- whether `newInstance()` succeeds;
- for the chunked write, per packet: whether a cancel arrived before its
  check, and whether its write was issued.

Calls the library makes to the stack are recorded in a log of `GattCall`
values. Callbacks it fires are recorded as event sequences.

Files:

- `wrappers.dfy`: `Option`.
- `gatt.dfy`: bytes, UUIDs, GATT constants, services and characteristics, the
  call log.
- `entity_write.dfy`: packetisation, the run specification, class
  `WriteRequest`.
- `connection.dfy`: the `BleRequestImpl` state as a value `Tables`, and
  close/disconnect as functions on it.
- `discovery.dfy`: classification of discovered services and the arming calls.
- `ble_request.dfy`: class `BleRequestImpl`.
- `request_proxy.dfy`: class `Rproxy`.
- `device_list.dfy`: class `LeDeviceListAdapter`.

Each state-changing method states its whole new state. It does this through
a ghost `Snapshot()` (or `State()`), compared with a specification function
of the old state. The properties are proved about those functions as lemmas.

Behaviours of the code that the model keeps as they are:

- **Timeouts.** Pending timeouts are a multiset: `connect` posts a new one
  every time it reaches `connectGatt`, and `cancelTimeout` removes every copy
  for the address.
- **Link-down.** `close(address)` only drops the address from the connected
  list and the link table. The write/read tables and the notify queue are
  untouched (`Connection.ClosedIsolation`).
- **Timeout teardown.** The timeout runnable dereferences the connect
  callback without a null check, so with no callback it stops before
  `close`.
- **Link-up after teardown.** A successful CONNECTED event always appends the
  address to the connected list; only the discovery request depends on a
  recorded link.
- **Re-enabling on disable.** `onDescriptorWrite` always continues the
  sequence with `enabled = true`. A disable over more than one queued
  characteristic therefore re-enables the rest, as the second `Armed`
  argument in `OnDescriptorWrite`'s contract shows.
- **Empty notify queue.** With an empty queue `setCharacteristicNotification`
  issues no write, so no descriptor-write event follows and
  `onNotifySuccess` never fires.
- **Negative delay.** In manual pacing, `Thread.sleep(delay)` throws
  IllegalArgumentException for a negative delay and only
  InterruptedException is caught. The job then dies after the first packet
  that does not end the run: no terminal callback fires and
  `isWritingEntity` stays raised (`EntityWrite.ExecuteEffect`). The trace
  lemmas (`CallbackEvents`, `ExactlyOneTerminal`, `FinalProgressIsWhole`)
  are about the whole run, which is what every other job performs.
- **Progress.** Progress is the integer pair (bytes consumed, payload
  length). The two-decimal rounding is not part of this model.

## Model

| member | source | states |
|---|---|---|
| EntityWrite.Consumed | blelibrary/src/main/java/cn/com/heaton/blelibrary/ble/request/WriteRequest.java:109-119 | the cursor after k packets never passes the payload length |
| EntityWrite.ConsumedClosedForm | blelibrary/src/main/java/cn/com/heaton/blelibrary/ble/request/WriteRequest.java:109-119 | after k packets the cursor is min(k * packLength, length) |
| EntityWrite.PacketCountBounds | blelibrary/src/main/java/cn/com/heaton/blelibrary/ble/request/WriteRequest.java:101-119 | the packet count n is the least n with length <= n * packLength |
| EntityWrite.PacketCountIsCeil | blelibrary/src/main/java/cn/com/heaton/blelibrary/ble/request/WriteRequest.java:101-119 | the loop runs (length + packLength - 1) / packLength times, i.e. ceil(length / packLength) |
| EntityWrite.LoopBound | blelibrary/src/main/java/cn/com/heaton/blelibrary/ble/request/WriteRequest.java:101 | `index < length` holds after k packets exactly when k is below the packet count |
| EntityWrite.ConsumedAdvances | blelibrary/src/main/java/cn/com/heaton/blelibrary/ble/request/WriteRequest.java:113-118 | each packet of the run strictly advances the cursor |
| EntityWrite.ConsumedMonotone | blelibrary/src/main/java/cn/com/heaton/blelibrary/ble/request/WriteRequest.java:113-118 | the cursor never moves backwards |
| EntityWrite.ConsumedAll | blelibrary/src/main/java/cn/com/heaton/blelibrary/ble/request/WriteRequest.java:101-119 | when the loop ends the whole payload has been consumed |
| EntityWrite.Chunk | blelibrary/src/main/java/cn/com/heaton/blelibrary/ble/request/WriteRequest.java:113-118 | a packet carries at most packLength payload bytes |
| EntityWrite.ChunksPrefix | blelibrary/src/main/java/cn/com/heaton/blelibrary/ble/request/WriteRequest.java:113-118 | the unpadded packets so far concatenate to the payload prefix up to the cursor |
| EntityWrite.Reassembly | blelibrary/src/main/java/cn/com/heaton/blelibrary/ble/request/WriteRequest.java:99-119 | the unpadded packets of a whole run concatenate to the payload |
| EntityWrite.UnpaddedPacketsAreChunks | blelibrary/src/main/java/cn/com/heaton/blelibrary/ble/request/WriteRequest.java:109-112 | without lastPackComplete the buffers sent are exactly the payload chunks |
| EntityWrite.PacketShape | blelibrary/src/main/java/cn/com/heaton/blelibrary/ble/request/WriteRequest.java:109-118 | every buffer starts with its chunk; padded buffers have packLength bytes with zeros past the payload; unpadded ones have packLength bytes except the last, which has what remains |
| EntityWrite.PacketStep | blelibrary/src/main/java/cn/com/heaton/blelibrary/ble/request/WriteRequest.java:109-119 | the allocated length and copy loop for packet k produce exactly packet k and the next cursor |
| EntityWrite.FillPacket | blelibrary/src/main/java/cn/com/heaton/blelibrary/ble/request/WriteRequest.java:113-118 | the copy loop fills a fresh zeroed buffer from the cursor, stopping at the payload's end, and returns the advanced cursor |
| EntityWrite.NextPacket | blelibrary/src/main/java/cn/com/heaton/blelibrary/ble/request/WriteRequest.java:109-119 | one iteration's buffer is packet k, the cursor moves to the next packet boundary, and availableLength stays the bytes left when unpadded |
| EntityWrite.Validate | blelibrary/src/main/java/cn/com/heaton/blelibrary/ble/request/WriteRequest.java:75-80 | the request is accepted exactly when the payload is non-empty and packLength > 0; an empty payload is the first error reported |
| EntityWrite.StopIsFirstHalt | blelibrary/src/main/java/cn/com/heaton/blelibrary/ble/request/WriteRequest.java:101-127 | the run stops at the first packet whose check sees a cancel, or (with a callback) at the first failed write, and otherwise completes; without a callback a failure never stops it |
| EntityWrite.SilentWithoutCallback | blelibrary/src/main/java/cn/com/heaton/blelibrary/ble/request/WriteRequest.java:101-151 | with no callback the run reports nothing |
| EntityWrite.CallbackEvents | blelibrary/src/main/java/cn/com/heaton/blelibrary/ble/request/WriteRequest.java:101-151 | with a callback the trace is one progress report (bytes consumed, length) per packet written, then one terminal callback matching the outcome |
| EntityWrite.ExactlyOneTerminal | blelibrary/src/main/java/cn/com/heaton/blelibrary/ble/request/WriteRequest.java:101-151 | with a callback exactly one cancel/fail/success callback fires, and it is the last |
| EntityWrite.ProgressNonDecreasing | blelibrary/src/main/java/cn/com/heaton/blelibrary/ble/request/WriteRequest.java:129-132 | reported progress never decreases and never passes the payload length |
| EntityWrite.FinalProgressIsWhole | blelibrary/src/main/java/cn/com/heaton/blelibrary/ble/request/WriteRequest.java:129-151 | a completed run reports length/length and then success |
| EntityWrite.RunFromAdvance | blelibrary/src/main/java/cn/com/heaton/blelibrary/ble/request/WriteRequest.java:113-133 | a packet that is written and does not end the run appends its buffer and its progress report, then continues |
| EntityWrite.RunFromCancel | blelibrary/src/main/java/cn/com/heaton/blelibrary/ble/request/WriteRequest.java:102-108 | a cancel seen at a check writes nothing more, clears both flags, reports cancel with a callback and returns false |
| EntityWrite.RunFromFailure | blelibrary/src/main/java/cn/com/heaton/blelibrary/ble/request/WriteRequest.java:120-127 | a failed write, with a callback, reports failure, clears both flags and returns false after that one packet |
| EntityWrite.RunFromEnd | blelibrary/src/main/java/cn/com/heaton/blelibrary/ble/request/WriteRequest.java:146-151 | an exhausted payload returns true and, with a callback, reports success and clears both flags |
| EntityWrite.RunFromOutcome | blelibrary/src/main/java/cn/com/heaton/blelibrary/ble/request/WriteRequest.java:96-151 | the run returns true exactly when it completes; only a completed run without a callback leaves the flags raised |
| EntityWrite.RunFromIssued | blelibrary/src/main/java/cn/com/heaton/blelibrary/ble/request/WriteRequest.java:101-127 | the buffers written are, in order, the packets up to the one where the run stops, and none after it |
| EntityWrite.RunFromEvents | blelibrary/src/main/java/cn/com/heaton/blelibrary/ble/request/WriteRequest.java:101-151 | the callbacks the run fires are the trace `Events` |
| EntityWrite.RunFrom | blelibrary/src/main/java/cn/com/heaton/blelibrary/ble/request/WriteRequest.java:101-151 | the loop from packet k: check the cancel flag, write the packet, then end on a failure with a callback, or report progress and continue; completion reports success with a callback and returns true |
| EntityWrite.RunEntity | blelibrary/src/main/java/cn/com/heaton/blelibrary/ble/request/WriteRequest.java:96-151 | a whole run raises isWritingEntity, sets the auto-mode flag to the job's mode, and then sends from the first packet |
| EntityWrite.Execute | blelibrary/src/main/java/cn/com/heaton/blelibrary/ble/request/WriteRequest.java:93-152 | the job is the whole run, except that a throwing pacing sleep ends it after a first packet that neither sees a cancel nor fails with a callback |
| EntityWrite.ExecuteEffect | blelibrary/src/main/java/cn/com/heaton/blelibrary/ble/request/WriteRequest.java:134-144 | the job dies exactly when the sleep throws and packet 0 does not end the run; it then leaves isWritingEntity raised, has written only packet 0 and fires no terminal callback; otherwise it is the whole run |
| EntityWrite.RunEntityEffect | blelibrary/src/main/java/cn/com/heaton/blelibrary/ble/request/WriteRequest.java:85-155 | a whole run ends with the result, flags, written buffers and callbacks determined by where it stops |
| EntityWrite.WriteRequest.constructor | blelibrary/src/main/java/cn/com/heaton/blelibrary/ble/request/WriteRequest.java:30-35 | no callbacks, both flags down, nothing written |
| EntityWrite.WriteRequest.Write | blelibrary/src/main/java/cn/com/heaton/blelibrary/ble/request/WriteRequest.java:37-45 | stores the listener, hands the data to the single write, and returns exactly its issue result |
| EntityWrite.WriteRequest.CancelWriteEntity | blelibrary/src/main/java/cn/com/heaton/blelibrary/ble/request/WriteRequest.java:60-65 | clears both flags when a transfer is running; otherwise changes nothing |
| EntityWrite.WriteRequest.WriteEntityData | blelibrary/src/main/java/cn/com/heaton/blelibrary/ble/request/WriteRequest.java:67-71 | invalid parameters throw before the listener is stored, with nothing submitted; valid ones store the listener and perform the job with the entity's mode, padding and delay |
| EntityWrite.WriteRequest.WriteEntity | blelibrary/src/main/java/cn/com/heaton/blelibrary/ble/request/WriteRequest.java:73-83 | the listener is stored first; empty data or packLength <= 0 throw with nothing submitted; otherwise the unpadded, delay-paced job is performed |
| EntityWrite.WriteRequest.CheckCancel | blelibrary/src/main/java/cn/com/heaton/blelibrary/ble/request/WriteRequest.java:102-108 | a cancel sampled before packet k clears both flags and ends the run, firing onWriteCancel only with a callback; without a cancel nothing changes |
| EntityWrite.WriteRequest.SendPacket | blelibrary/src/main/java/cn/com/heaton/blelibrary/ble/request/WriteRequest.java:109-133 | packet k is cut and handed to the stack; a refused write with a callback ends the run with onWriteFailed and both flags cleared, otherwise (a refused write without a callback included) the run goes on and progress (consumed, length) is reported when a callback is set |
| EntityWrite.WriteRequest.ExecuteEntity | blelibrary/src/main/java/cn/com/heaton/blelibrary/ble/request/WriteRequest.java:85-155 | the loop leaves flags, written buffers, callbacks and result exactly as the job specification `Execute` does, including the abort when the pacing sleep throws |
| EntityWrite.WriteRequest.OnWriteSuccess | blelibrary/src/main/java/cn/com/heaton/blelibrary/ble/request/WriteRequest.java:157-167 | forwards the confirmation only when a write callback is stored |
| EntityWrite.WriteRequest.OnWiteFailed | blelibrary/src/main/java/cn/com/heaton/blelibrary/ble/request/WriteRequest.java:169-174 | forwards the failure only when a write callback is stored |
| Connection.RemoveFirst | blelibrary/src/main/java/cn/com/heaton/blelibrary/ble/BleRequestImpl.java:379 | removing an absent address changes nothing; removing a present one shortens the list by one |
| Connection.RemoveFirstMultiset | blelibrary/src/main/java/cn/com/heaton/blelibrary/ble/BleRequestImpl.java:379 | exactly one copy of the address leaves the list, and nothing else |
| Connection.RemoveFirstOrder | blelibrary/src/main/java/cn/com/heaton/blelibrary/ble/BleRequestImpl.java:379 | the first occurrence is the one removed; the rest keep their order |
| Connection.DuplicateSurvivesClose | blelibrary/src/main/java/cn/com/heaton/blelibrary/ble/BleRequestImpl.java:379 | an address listed twice is still listed after one close |
| Connection.ClosedIsolation | blelibrary/src/main/java/cn/com/heaton/blelibrary/ble/BleRequestImpl.java:378-384 | close(address) forgets that address's link (closing it if one exists), removes one of its connected entries, and leaves every other address and every other table as they were |
| Connection.Closed | blelibrary/src/main/java/cn/com/heaton/blelibrary/ble/BleRequestImpl.java:378-384 | close(address): one connected entry of the address removed, its link closed if recorded and forgotten |
| Connection.CloseCalls | blelibrary/src/main/java/cn/com/heaton/blelibrary/ble/BleRequestImpl.java:406-410 | the closes close() issues, walking the connected list in order, one for each address with a link |
| Connection.ClosedAll | blelibrary/src/main/java/cn/com/heaton/blelibrary/ble/BleRequestImpl.java:404-413 | close(): those closes, then the link table and the connected list emptied |
| Connection.Disconnected | blelibrary/src/main/java/cn/com/heaton/blelibrary/ble/BleRequestImpl.java:365-369 | a disconnect call, cursor 0, an empty notify queue, and this address's write and read entries removed |
| Connection.CloseCallsExact | blelibrary/src/main/java/cn/com/heaton/blelibrary/ble/BleRequestImpl.java:404-413 | close() closes a link exactly when the address is listed and has a link recorded |
| Discovery.Classify | blelibrary/src/main/java/cn/com/heaton/blelibrary/ble/BleRequestImpl.java:591-607 | one characteristic: the write UUID puts it into the write slot, the read UUID into the read slot, and it is queued once for NOTIFY and once more for INDICATE |
| Discovery.ClassifyAll | blelibrary/src/main/java/cn/com/heaton/blelibrary/ble/BleRequestImpl.java:573-608 | the characteristics of a service are classified in order |
| Discovery.ScanService | blelibrary/src/main/java/cn/com/heaton/blelibrary/ble/BleRequestImpl.java:570-617 | a service is classified only when its UUID is the primary one or an extra one |
| Discovery.Scan | blelibrary/src/main/java/cn/com/heaton/blelibrary/ble/BleRequestImpl.java:567-618 | the services are scanned in order |
| Discovery.Readies | blelibrary/src/main/java/cn/com/heaton/blelibrary/ble/BleRequestImpl.java:614-616 | one onReady per examined service, in order |
| Discovery.DescriptorWrites | blelibrary/src/main/java/cn/com/heaton/blelibrary/ble/BleRequestImpl.java:536-547 | one descriptor write per descriptor, in order, each with the value for the characteristic |
| Discovery.ArmCalls | blelibrary/src/main/java/cn/com/heaton/blelibrary/ble/BleRequestImpl.java:530-549 | enable the characteristic at the stack, then the descriptor writes |
| Discovery.ClassifyAllRoute | blelibrary/src/main/java/cn/com/heaton/blelibrary/ble/BleRequestImpl.java:591-600 | within a service, the write or read slot ends up holding a characteristic of it with the configured UUID whenever there is one, and otherwise keeps its value |
| Discovery.ScanRoute | blelibrary/src/main/java/cn/com/heaton/blelibrary/ble/BleRequestImpl.java:567-619 | the write or read slot keeps its value or holds an offered characteristic with the configured UUID, and whenever one is offered it holds an offered one, replacing a stale entry |
| Discovery.ClassifyAllQueue | blelibrary/src/main/java/cn/com/heaton/blelibrary/ble/BleRequestImpl.java:601-607 | the earlier queue is kept as a prefix, and a characteristic joins exactly when it has NOTIFY or INDICATE |
| Discovery.ScanQueue | blelibrary/src/main/java/cn/com/heaton/blelibrary/ble/BleRequestImpl.java:567-619 | the queue keeps its prefix, and gains exactly the offered characteristics with NOTIFY or INDICATE |
| Discovery.SelectedIndicesSnoc | blelibrary/src/main/java/cn/com/heaton/blelibrary/ble/BleRequestImpl.java:567-570 | one more service adds its index to the examined set exactly when it is examined |
| Discovery.ReadiesCount | blelibrary/src/main/java/cn/com/heaton/blelibrary/ble/BleRequestImpl.java:614-616 | onReady fires once per examined service, each time for this device |
| Discovery.DescriptorValue | blelibrary/src/main/java/cn/com/heaton/blelibrary/ble/BleRequestImpl.java:539-543 | a value is set exactly when the characteristic has NOTIFY or INDICATE; it is the disable value exactly when disabling, and when enabling it is the indication value exactly when NOTIFY is absent |
| Discovery.DescriptorWritesShape | blelibrary/src/main/java/cn/com/heaton/blelibrary/ble/BleRequestImpl.java:533-548 | every descriptor is written once, in order, with the one value |
| BleRequest.FoundOfWithFound | blelibrary/src/main/java/cn/com/heaton/blelibrary/ble/BleRequestImpl.java:593-606 | writing a routing state back and reading it again gives the same state |
| BleRequest.WithFoundTwice | blelibrary/src/main/java/cn/com/heaton/blelibrary/ble/BleRequestImpl.java:593-606 | writing a routing state back twice keeps only the second |
| BleRequest.WithFoundOfSelf | blelibrary/src/main/java/cn/com/heaton/blelibrary/ble/BleRequestImpl.java:593-606 | writing back the current routing state changes nothing |
| BleRequest.DisplayedStep | blelibrary/src/main/java/cn/com/heaton/blelibrary/ble/BleRequestImpl.java:567-617 | one more service either routes its characteristics and fires onReady, or, when not examined, changes nothing |
| BleRequest.WithFoundClassify | blelibrary/src/main/java/cn/com/heaton/blelibrary/ble/BleRequestImpl.java:591-607 | routing one characteristic is a put into the write table, a put into the read table and appends to the queue |
| BleRequest.Displayed | blelibrary/src/main/java/cn/com/heaton/blelibrary/ble/BleRequestImpl.java:567-619 | the tables after a non-empty service list: the scanned routing state written back, and onReady per examined service under a callback |
| BleRequest.Armed | blelibrary/src/main/java/cn/com/heaton/blelibrary/ble/BleRequestImpl.java:524-527 | the entry under the cursor is armed and the cursor advances only while one remains |
| BleRequest.ArmRepeated | blelibrary/src/main/java/cn/com/heaton/blelibrary/ble/BleRequestImpl.java:213-215 | k successful descriptor writes arm k times with enabled = true |
| BleRequest.ArmAllCalls | blelibrary/src/main/java/cn/com/heaton/blelibrary/ble/BleRequestImpl.java:530-549 | the arming calls of a stretch of the queue, in order, each with enabled = true |
| BleRequest.NotifyReport | blelibrary/src/main/java/cn/com/heaton/blelibrary/ble/BleRequestImpl.java:218-226 | at most one report; success exactly for an enable value, cancelled exactly for the disable value |
| BleRequest.ArmedStep | blelibrary/src/main/java/cn/com/heaton/blelibrary/ble/BleRequestImpl.java:522-528 | arming advances the cursor and arms the entry under it only while one remains; the queue is unchanged |
| BleRequest.ArmedFrame | blelibrary/src/main/java/cn/com/heaton/blelibrary/ble/BleRequestImpl.java:522-528 | arming changes nothing but the cursor and the call log |
| BleRequest.ArmRepeatedCursor | blelibrary/src/main/java/cn/com/heaton/blelibrary/ble/BleRequestImpl.java:213-215 | after k successful descriptor writes the cursor has moved k places, capped at the queue's end, and nothing else but the calls changed |
| BleRequest.ArmRepeatedCalls | blelibrary/src/main/java/cn/com/heaton/blelibrary/ble/BleRequestImpl.java:213-215 | after k successful descriptor writes the entries from the old to the new cursor are armed in queue order, each once |
| BleRequest.ArmedExtends | blelibrary/src/main/java/cn/com/heaton/blelibrary/ble/BleRequestImpl.java:522-528 | one more round trip extends the armed stretch of the queue by the entry under the cursor |
| BleRequest.BleRequestImpl.constructor | blelibrary/src/main/java/cn/com/heaton/blelibrary/ble/BleRequestImpl.java:50-74 | all tables empty, cursor 0, nothing recorded |
| BleRequest.BleRequestImpl.VerifyParams | blelibrary/src/main/java/cn/com/heaton/blelibrary/ble/BleRequestImpl.java:487-493 | refuse exactly when there is no adapter or no link recorded for the address |
| BleRequest.BleRequestImpl.CancelTimeout | blelibrary/src/main/java/cn/com/heaton/blelibrary/ble/BleRequestImpl.java:301-303 | drops every pending timeout of the address and changes nothing else |
| BleRequest.BleRequestImpl.Connect | blelibrary/src/main/java/cn/com/heaton/blelibrary/ble/BleRequestImpl.java:311-351 | a listed address succeeds at once and changes nothing; no adapter, invalid address or missing device fail with nothing changed; otherwise one timeout is posted, CONNECTING reported, connectGatt called, and the link stored exactly when returned, which is the result |
| BleRequest.BleRequestImpl.OnConnectTimeout | blelibrary/src/main/java/cn/com/heaton/blelibrary/ble/BleRequestImpl.java:333-339 | the fired timeout leaves the pending set, reports the timeout and closes the address; with no callback it stops first |
| BleRequest.BleRequestImpl.Disconnect | blelibrary/src/main/java/cn/com/heaton/blelibrary/ble/BleRequestImpl.java:358-371 | refused or invalid addresses change nothing; otherwise the link is disconnected, the notify queue and cursor reset, and only this address's write and read entries removed |
| BleRequest.BleRequestImpl.Close | blelibrary/src/main/java/cn/com/heaton/blelibrary/ble/BleRequestImpl.java:378-384 | the new state is close(address) on the old one, proved isolated by ClosedIsolation |
| BleRequest.BleRequestImpl.CloseAll | blelibrary/src/main/java/cn/com/heaton/blelibrary/ble/BleRequestImpl.java:404-413 | closes the links of the listed addresses in list order, then empties the link table and the connected list |
| BleRequest.BleRequestImpl.SetMtu | blelibrary/src/main/java/cn/com/heaton/blelibrary/ble/BleRequestImpl.java:387-399 | an MTU request is sent only for a verified address on Lollipop or later with mtu > 20; the result is false otherwise |
| BleRequest.BleRequestImpl.WirteCharacteristic | blelibrary/src/main/java/cn/com/heaton/blelibrary/ble/BleRequestImpl.java:444-462 | writes only for a verified address whose write entry has the write UUID; under the table invariant, exactly when the address is verified and has a write entry |
| BleRequest.BleRequestImpl.ReadCharacteristic | blelibrary/src/main/java/cn/com/heaton/blelibrary/ble/BleRequestImpl.java:470-485 | reads only for a verified address whose read entry has the read UUID; under the table invariant, exactly when the address is verified and has a read entry |
| BleRequest.BleRequestImpl.ReadRssi | blelibrary/src/main/java/cn/com/heaton/blelibrary/ble/BleRequestImpl.java:500-514 | requests RSSI only for a verified address with a read entry |
| BleRequest.BleRequestImpl.SetCharacteristicNotification | blelibrary/src/main/java/cn/com/heaton/blelibrary/ble/BleRequestImpl.java:522-528 | a refused address changes nothing; otherwise the entry under the cursor is armed and the cursor advances while one remains, keeping cursor <= queue size |
| BleRequest.BleRequestImpl.SetCharacteristicNotificationInternal | blelibrary/src/main/java/cn/com/heaton/blelibrary/ble/BleRequestImpl.java:530-549 | enables the characteristic at the stack, then writes each descriptor in order |
| BleRequest.BleRequestImpl.IsContainUuid | blelibrary/src/main/java/cn/com/heaton/blelibrary/ble/BleRequestImpl.java:622-629 | true exactly when a non-null extra service UUID equals the given one |
| BleRequest.BleRequestImpl.RouteCharacteristic | blelibrary/src/main/java/cn/com/heaton/blelibrary/ble/BleRequestImpl.java:591-607 | write and read UUIDs put the characteristic into their tables; NOTIFY and INDICATE each queue it once; the tables keep only configured UUIDs |
| BleRequest.BleRequestImpl.RouteCharacteristics | blelibrary/src/main/java/cn/com/heaton/blelibrary/ble/BleRequestImpl.java:572-608 | the tables and queue after one examined service are its routing state written back |
| BleRequest.BleRequestImpl.DisplayGattServices | blelibrary/src/main/java/cn/com/heaton/blelibrary/ble/BleRequestImpl.java:555-619 | an empty service list disconnects; otherwise the new state is the scan of every service, with onReady per examined one |
| BleRequest.BleRequestImpl.OnConnectionStateChange | blelibrary/src/main/java/cn/com/heaton/blelibrary/ble/BleRequestImpl.java:79-115 | the address's timeouts are cancelled first; CONNECTED appends it and requests discovery only with a link; DISCONNECTED reports then closes; a failure status closes then reports the exception; other states change nothing more |
| BleRequest.BleRequestImpl.OnServicesDiscovered | blelibrary/src/main/java/cn/com/heaton/blelibrary/ble/BleRequestImpl.java:128-141 | a failure status changes nothing; success reports, empties the queue and resets the cursor, then examines the services of a recorded link |
| BleRequest.BleRequestImpl.OnDescriptorWrite | blelibrary/src/main/java/cn/com/heaton/blelibrary/ble/BleRequestImpl.java:206-230 | a failure status changes nothing; success arms the next entry while one remains, and otherwise only reports completion by the descriptor value |
| RequestProxy.PutAnnotations | blelibrary/src/main/java/cn/com/heaton/blelibrary/ble/request/Rproxy.java:31-40 | each @Implement annotation whose instantiation succeeds puts its instance under the class, in declaration order |
| RequestProxy.Registry | blelibrary/src/main/java/cn/com/heaton/blelibrary/ble/request/Rproxy.java:26-44 | starting from an empty map, each class carrying @Implement has its annotations put, in argument order |
| RequestProxy.PutAnnotationsEffect | blelibrary/src/main/java/cn/com/heaton/blelibrary/ble/request/Rproxy.java:31-40 | one class's annotations touch only its own key, and register it exactly when one instantiation succeeds, with that annotation's instance |
| RequestProxy.RegistryMembership | blelibrary/src/main/java/cn/com/heaton/blelibrary/ble/request/Rproxy.java:26-44 | a key is registered exactly when some class with that key has an @Implement whose instantiation succeeds; others are absent and a failure does not stop the rest |
| RequestProxy.RegistryLatestWins | blelibrary/src/main/java/cn/com/heaton/blelibrary/ble/request/Rproxy.java:34 | a registered key holds the instance made for the last class with that key that registered |
| RequestProxy.Rproxy.constructor | blelibrary/src/main/java/cn/com/heaton/blelibrary/ble/request/Rproxy.java:24 | the registry starts empty |
| RequestProxy.Rproxy.Init | blelibrary/src/main/java/cn/com/heaton/blelibrary/ble/request/Rproxy.java:26-44 | the registry becomes the one built from a fresh map over the given classes, so earlier registrations are gone |
| RequestProxy.Rproxy.GetRequest | blelibrary/src/main/java/cn/com/heaton/blelibrary/ble/request/Rproxy.java:46-48 | returns the registered handler, or nothing exactly when the key is unregistered |
| RequestProxy.Rproxy.Release | blelibrary/src/main/java/cn/com/heaton/blelibrary/ble/request/Rproxy.java:50-53 | empties the registry, so every later lookup returns nothing |
| DeviceList.AddedByAddress | app/src/main/java/com/example/admin/mybledemo/adapter/LeDeviceListAdapter.java:39-49 | the device is appended unless a listed device has its address |
| DeviceList.AppendNew | app/src/main/java/com/example/admin/mybledemo/adapter/LeDeviceListAdapter.java:55-61 | each given device is appended, in order, unless that object is already listed |
| DeviceList.AddedByAddressEffect | app/src/main/java/com/example/admin/mybledemo/adapter/LeDeviceListAdapter.java:39-49 | addDevice keeps the list as a prefix and adds at most the one device; the address is listed after it and the listed addresses grow by exactly it; distinct addresses stay distinct |
| DeviceList.AppendNewEffect | app/src/main/java/com/example/admin/mybledemo/adapter/LeDeviceListAdapter.java:55-61 | addDevices keeps the list as a prefix, lists exactly the old and given devices, and never lists one object twice |
| DeviceList.AppendNewKeepsSameAddress | app/src/main/java/com/example/admin/mybledemo/adapter/LeDeviceListAdapter.java:55-61 | addDevices appends a second object with a listed address, so addresses can repeat |
| DeviceList.BleDevice.constructor | app/src/main/java/com/example/admin/mybledemo/adapter/LeDeviceListAdapter.java:41 | a device carries its address |
| DeviceList.LeDeviceListAdapter.constructor | app/src/main/java/com/example/admin/mybledemo/adapter/LeDeviceListAdapter.java:33-37 | the list starts empty |
| DeviceList.LeDeviceListAdapter.AddDevice | app/src/main/java/com/example/admin/mybledemo/adapter/LeDeviceListAdapter.java:39-49 | the search loop leaves the list as addDevice's de-duplicating append |
| DeviceList.LeDeviceListAdapter.GetDevices | app/src/main/java/com/example/admin/mybledemo/adapter/LeDeviceListAdapter.java:51-53 | returns the list itself |
| DeviceList.LeDeviceListAdapter.AddDevices | app/src/main/java/com/example/admin/mybledemo/adapter/LeDeviceListAdapter.java:55-61 | the loop leaves the list as addDevices' object-de-duplicating append |
| DeviceList.LeDeviceListAdapter.GetDevice | app/src/main/java/com/example/admin/mybledemo/adapter/LeDeviceListAdapter.java:63-65 | the element at the position, and an error exactly when the position is outside the list |
| DeviceList.LeDeviceListAdapter.Clear | app/src/main/java/com/example/admin/mybledemo/adapter/LeDeviceListAdapter.java:67-69 | the list becomes empty |
| DeviceList.LeDeviceListAdapter.GetCount | app/src/main/java/com/example/admin/mybledemo/adapter/LeDeviceListAdapter.java:71-74 | the list's size |
| DeviceList.LeDeviceListAdapter.GetItem | app/src/main/java/com/example/admin/mybledemo/adapter/LeDeviceListAdapter.java:76-79 | the element at the position, and an error exactly when the position is outside the list |
| DeviceList.LeDeviceListAdapter.GetItemId | app/src/main/java/com/example/admin/mybledemo/adapter/LeDeviceListAdapter.java:81-84 | the position itself |

## Left out

- The OTA path is not modelled; it depends on foreign service lookup. This covers `writeOtaData`, `otaWriteCharacteristic` and `otaListener`.
- Logging is not modelled; it has no behaviour.
- The GATT callbacks that only forward to wrapper callbacks are not modelled: characteristic read/write/changed, RSSI and MTU.
- `BleRequestImpl`'s singleton, `initialize` and `release` are not modelled; they are Android plumbing.
- `refreshDeviceCache` is not modelled; it works by reflection.
- The two-decimal `BigDecimal` rounding of progress is not modelled; it is floating point.
- Threading and timing are not modelled: `TaskExecutor.submit`, `lock.wait(500)`/`lock.notify()`, the sleep itself and `synchronized(locker)`. The job runs inside the call, a cancel from another thread is an input sampled before each packet's check, and the only effect of pacing modelled is the exception a negative delay raises.
- Handler timers have no deadlines. A timeout is only a pending entry, and `OnConnectTimeout` is the event of one firing.
- Null arguments and null list entries are not modelled: a null payload, device, service list or descriptor. Sequences hold no nulls, except the extra service UUIDs, where null entries are modelled.
- The exceptions that `wirteCharacteristic`, `readCharacteristic` and `readRssi` catch are not modelled, because nothing in the model throws them.
- `Rproxy.getRequestsClass` is not modelled; it scans a DexFile.
- The instantiation inside `Rproxy.init` is an oracle that may fail; what gets created is only the class name and the registering argument's position.
- Before the first `init`, `requestObjs` is null in the source: both a lookup and `release` throw a NullPointerException there. The model starts with an empty registry, so `RequestProxy.Rproxy.GetRequest` and `RequestProxy.Rproxy.Release` do not model those throws.
- RequestProxy.Rproxy.Init: `newInstance()` passes on any exception the implementation's constructor throws, and only InstantiationException and IllegalAccessException are caught (Rproxy.java:35-39). Such an exception ends `init` with the later classes unregistered; the instantiation oracle covers only the caught failures.
- `LeDeviceListAdapter.getView` is not modelled; it is view inflation.
- `Implement.java` and `BleDevice.java` are not part of this model. Annotations are modelled as a list of values. A device is an object with an address, compared by identity, which is Java's default `equals`.
- `EntityData.java` is not part of this model. Two assumptions follow:
  - `validParms` is assumed to reject exactly what the explicit overload rejects.
  - The four-argument `EntityData` constructor is assumed to leave both auto-write mode and last-packet padding off.
- EntityWrite.WriteRequest.WriteEntityData: the exception `validParms` throws is modelled with the explicit overload's error cases, because its source is not available.
- `getBleRequest` (BleRequestImpl.java:258-263) creates the singleton when absent and never returns null, so the null checks in `write` are dead code; `EntityWrite.WriteRequest.Write` returns exactly the single write's issue result.
- BleRequest.BleRequestImpl.OnConnectTimeout: with no connect callback, the source throws a NullPointerException in the timer thread; the model ends the runnable there, with nothing closed.
- Java integers are unbounded here. Payload lengths and indices stay far below 2^31 in practice, so no wrap-around is modelled.
