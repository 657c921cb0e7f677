# Neewer SNL660 light driver — Dafny model

This project models the protocol and state layer of the `SNL660Light` ESPHome
light output, which drives a Neewer SNL660 LED panel over Bluetooth Low Energy.
It covers two parts that share a handful of fields:

- **Discovery and the handle cache.** The GATT client event handler drops the
  cached write handle, the ready flag and the change filter's memory on a
  disconnect or close event. After a completed service search it looks the
  service up by its big-endian UUID, falling back to the little-endian one. It
  then looks the characteristic up, first in the byte order that found the
  service and then in the other order. It caches the handle it finds, and that
  handle is ready only if it is non-zero.
- **The frame encoder and the change filter.** Every command is one 5-byte frame
  `[0x78, prefix, 0x01, value, checksum]`. The checksum is the low byte of the
  sum of the first four bytes. A light-state update clamps brightness to 0..100
  and the colour-temperature code to 32..56. It then writes at most three
  frames, in the order power (0x81), brightness (0x82), temperature (0x83).
  Each frame is written only when its dimension differs from the value
  remembered. The remembered value is updated whatever the write returned.

Files and modules:

- `wrappers.dfy` (`Wrappers`): an `Option` datatype.
- `protocol.dfy` (`Protocol`): bytes, commands, the frame encoder, a reference
  decoder, and the round-trip and known-frame lemmas.
- `discovery.dfy` (`Discovery`): the four UUID constants, the service table as
  a map, and the lookup with its fallback order. The lookup is defined through
  one "first candidate present" search, which is used for both the service and
  the characteristic.
- `change_filter.dfy` (`ChangeFilter`): `clamp_i`, the filter's memory
  (`Applied`), and the pure definition `Update` of one light-state update. Its
  lemmas show that an update writes exactly the frames an independent predicate
  `Wanted` describes, in protocol order, and that nothing else would do. Further
  lemmas cover idempotence, range bounds and power-on behaviour.
- `transport.dfy` (`Transport`): the BLE client the driver borrows. It holds the
  link state, the GATT table found by discovery, and a log of every write the
  driver attempted. The write's status is left unspecified.
- `snl660_light.dfy` (`Snl660`): the `Snl660Light` class with the fields of
  `snl660_light.h` and their initial values. Its methods are the event handler,
  `write_packet_` and `write_state`. Each method is proved against the
  definitions above, and a verified client method goes through a whole
  session of discover, apply, disconnect, reconnect and apply.

The BLE transport is abstracted. `client_->connected()` is the field
`BleClient.connected`. `get_service`/`get_characteristic` are lookups in
`BleClient.services`, a `map` from service UUID to a `map` from characteristic
UUID to handle. `esp_ble_gattc_write_char` is `BleClient.WriteCharNoRsp`: it
appends the write to `BleClient.written` and returns an arbitrary status. No
proof depends on that status, so the contracts of `WriteState` show that a
write's result never affects the filter's state.

For the bytes [0x78, 0x81, 0x01, 0x01] the frame's checksum is 0xFB; the
brightness-73 and temperature-40 frames end in 0x44 and 0x24
(`Protocol.KnownFrames`, `Snl660.FirstApplyFrames`).

## Model

| member | source | states |
|---|---|---|
| `ChangeFilter.ClampI` | my_components/neewer_snl660/snl660_light.cpp:35-39 | for lo ≤ hi the result lies in [lo, hi]; a value already in range comes back unchanged; below the range gives lo, above gives hi |
| `ChangeFilter.BrightnessCode` | my_components/neewer_snl660/snl660_light.cpp:137-138 | the brightness written is always in 0..100 |
| `ChangeFilter.TemperatureCode` | my_components/neewer_snl660/snl660_light.cpp:144-145 | the colour-temperature code written is always in 32..56 |
| `Protocol.Encode` | my_components/neewer_snl660/snl660_light.cpp:106-111 | a frame is 5 bytes: 0x78, the prefix, 0x01, the value, then the sum of the first four bytes modulo 256 |
| `Protocol.DecodeEncode` | my_components/neewer_snl660/snl660_light.cpp:106-111 | the reference decoder recovers the prefix and value of every frame built |
| `Protocol.EncodeDecode` | my_components/neewer_snl660/snl660_light.cpp:106-111 | every byte string the decoder accepts (header, marker, valid checksum) is exactly the frame built for what it returns |
| `Protocol.EncodeInjective` | my_components/neewer_snl660/snl660_light.cpp:106-111 | distinct (prefix, value) pairs give distinct frames |
| `Protocol.KnownFrames` | my_components/neewer_snl660/snl660_light.cpp:106-111 | power on is 78 81 01 01 FB, power off 78 81 01 02 FC, brightness 73 is 78 82 01 49 44, temperature 40 is 78 83 01 28 24 |
| `Discovery.ByteOrders` | my_components/neewer_snl660/snl660_light.cpp:24-28 | each little-endian UUID constant is its big-endian one byte-reversed; the four constants are distinct |
| `Discovery.FirstPresent` | my_components/neewer_snl660/snl660_light.cpp:73-86 | returns the index of the first candidate UUID present, with all earlier ones absent, or nothing exactly when no candidate is present |
| `Discovery.LookupWriteHandle` | my_components/neewer_snl660/snl660_light.cpp:73-94 | no service exactly when neither service UUID is present; the BE service is chosen whenever it is present; a missing characteristic means neither order is present in the chosen service; when found, the characteristic in the service's own byte order is taken whenever present, otherwise the other order, and the handle is the one the table gives |
| `Discovery.LittleEndianOnlySameHandle` | my_components/neewer_snl660/snl660_light.cpp:73-94 | a peer reporting only little-endian UUIDs yields the same handle as one reporting only big-endian UUIDs |
| `Discovery.MixedOrderFound` | my_components/neewer_snl660/snl660_light.cpp:85-86 | the characteristic falls back independently: for every BE service that holds the LE characteristic but not the BE one, the LE characteristic's handle is found |
| `ChangeFilter.UpdateWritesChanges` | my_components/neewer_snl660/snl660_light.cpp:147-165 | an update writes, in protocol order with at most one frame per dimension, exactly: the power frame (0x01 on, 0x02 off) iff the power changed, and, only while on, each clamped level iff it differs from the one remembered |
| `ChangeFilter.UpdateUnique` | my_components/neewer_snl660/snl660_light.cpp:147-165 | any sequence in protocol order holding exactly the wanted frames is the one an update produces |
| `ChangeFilter.AtMostThree` | my_components/neewer_snl660/snl660_light.cpp:147-165 | any commands in protocol order number at most three |
| `ChangeFilter.UpdateAtMostThree` | my_components/neewer_snl660/snl660_light.cpp:147-165 | an update writes at most three frames |
| `ChangeFilter.UpdateRemembers` | my_components/neewer_snl660/snl660_light.cpp:148-165 | after an update the power is remembered as requested; the clamped levels are remembered only while on, and are kept unchanged while off; the field ranges are preserved |
| `ChangeFilter.OffWritesNoLevels` | my_components/neewer_snl660/snl660_light.cpp:153 | an update to off writes no brightness or temperature frame |
| `ChangeFilter.LevelsInRange` | my_components/neewer_snl660/snl660_light.cpp:149-163 | every power frame carries 0x01 or 0x02, every brightness frame a value in 0..100, every temperature frame a value in 32..56 |
| `ChangeFilter.Idempotent` | my_components/neewer_snl660/snl660_light.cpp:147-165 | repeating an update writes nothing and leaves the memory as it was |
| `ChangeFilter.OffStaysSilent` | my_components/neewer_snl660/snl660_light.cpp:148-153 | with the light already off, an update to off writes nothing |
| `ChangeFilter.FirstOnWritesAll` | my_components/neewer_snl660/snl660_light.h:26-28 | from the initial memory (off, -1, -1) an update to on writes the power-on, brightness and temperature frames, in that order |
| `ChangeFilter.PowerOnResendsChangedLevels` | my_components/neewer_snl660/snl660_light.cpp:153-165 | after on, then off, then on again, a level frame is written iff that level differs from the one last applied while on |
| `Transport.BleClient.WriteCharNoRsp` | my_components/neewer_snl660/snl660_light.cpp:113-115 | the frame is handed to the stack on the given handle; link state and GATT table are untouched; the status is unconstrained |
| `Snl660.Snl660Light.constructor` | my_components/neewer_snl660/snl660_light.h:21-28 | a new instance has no client, handle 0, not ready, and memory off/-1/-1 |
| `Snl660.Snl660Light.SetBleClient` | my_components/neewer_snl660/snl660_light.cpp:41-47 | stores the client and changes nothing else |
| `Snl660.Snl660Light.GattcEventHandler` | my_components/neewer_snl660/snl660_light.cpp:57-100 | with no client, or on any other event, nothing changes; disconnect and close set handle 0, not ready, memory off/-1/-1; search-complete caches the looked-up handle with ready iff it is non-zero, or leaves handle and flag unchanged when nothing is found, and never touches the memory; the invariant (ready implies a non-zero handle, levels in range) is kept |
| `Snl660.Snl660Light.WritePacket` | my_components/neewer_snl660/snl660_light.cpp:102-122 | with no client, a link down, the handle not ready or zero, nothing is written and false is returned; otherwise exactly the encoded frame is written to the cached handle, and true is returned only in that case |
| `Snl660.Snl660Light.WriteState` | my_components/neewer_snl660/snl660_light.cpp:124-166 | with no client, a link down or the handle not ready, nothing is written and the memory is unchanged; otherwise the frames of `Update` are written to the cached handle in order and the memory becomes the update's, independently of the writes' status; handle, flag and invariant are kept |
| `Snl660.Frames` | my_components/neewer_snl660/snl660_light.cpp:113-115 | one write per command, in order, each carrying that command's frame to the given handle |
| `Snl660.FirstApplyFrames` | my_components/neewer_snl660/snl660_light.cpp:147-165 | the first update to on/73/40 writes 78 81 01 01 FB, 78 82 01 49 44, 78 83 01 28 24 |
| `Snl660.DiscoverAndApplyTwice` | my_components/neewer_snl660/snl660_light.cpp:72-98 | after discovery on a little-endian-only peer the handle is ready, and the same update applied twice writes its frames once |
| `Snl660.ReconnectScenario` | my_components/neewer_snl660/snl660_light.cpp:59-69 | updates before a client is set or before discovery write nothing; a disconnect clears the memory, so after rediscovery the same update writes all three frames again: six writes in all, the second three equal to the first |

## Left out

- The floating-point front-end of `write_state` (snl660_light.cpp:136-144) is not modelled: `lroundf`, `fminf`/`fmaxf`, the `1000000.0f / mireds` conversion and the 4500 K fallback. `WriteState` takes the rounded brightness percentage and the rounded colour-temperature code as integers, and the model keeps the integer `clamp_i` steps that follow.
- `get_traits` (snl660_light.cpp:49-55) is not modelled. It only returns constant colour modes and the mireds range 179..313.
- `set_ble_client` registering the node with the client, and every `node_state` assignment, are not modelled. That is framework bookkeeping that no modelled behaviour reads.
- `ESP_LOG*` logging is not modelled.
- The GATT interface and connection identifiers, the write type and the authentication mode of `esp_ble_gattc_write_char` are not modelled. The transport's write status is left unconstrained.
- Service and characteristic lookup is exact matching of 16-byte UUIDs in a map. The transport's own UUID comparison rules and its handling of several services with one UUID are not modelled.
- Event delivery and concurrency are not modelled. Each handler call is one atomic step, and the transport changing `connected` or `services` between calls is shown by assignments in the client method.
- The C `int` width is not modelled. The rounded inputs are unbounded integers, and an overflow in `lroundf` is outside the model.
- `light.py` (configuration schema and code generation) has no runtime logic and is not modelled.
