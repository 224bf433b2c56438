# ESP32 BLE HID keyboard: a Dafny model

This project models the core of an ESP32 firmware that presents itself over
Bluetooth Low Energy as a HID keyboard, using the NimBLE host stack. It covers:

- the GATT access callbacks of the three services the firmware registers:
  - HID (`main/ble_hid.c`);
  - Battery (`main/ble_battery.c`);
  - Device Information (`main/ble_device_info.c`);
- the packed wire layouts those callbacks serve (the headers);
- the HID report descriptor;
- the GAP layer of `main/gap.c`: bring-up, advertising, and the GAP event
  handler with its stored connection handle;
- the stand-alone variant in `main/idf-ble-keyboard.c`: its GAP set-up, its
  non-connectable advertiser and its address formatter.

The model is functional. It uses three ideas throughout:

- **Access callbacks.** Each callback is a function from an `Att.Access` to an
  `Att.Response`. An `Access` holds the access kind, the bytes written, and
  the status the stack's append reports. A `Response` holds the callback's
  return code and the bytes it appended.
- **Callback state.** A callback that owns state (a CCCD value) also takes the
  old value and returns the new one, as `Att.Handled`.
- **Host-stack calls.** Each `ble_*` call into NimBLE becomes a
  `Stack.Command`. Its status comes from an oracle `Command -> int`. The calls
  issued are recorded as a trace. The two mbuf calls the callbacks make are
  handled differently; see "## Left out".

`Stack.Sequence` is the firmware's recurring "call in order, return the first
nonzero status" pattern. It is proved to stop at the first failing checked
call. Every init and advertising routine, in both `main/gap.c` and
`main/idf-ble-keyboard.c`, is shown to be an instance of it by an
`...IsSequence` lemma.

Two layout facts differ from what a quick reading suggests, and the model
follows the code:

- The Presentation Format struct (`ble_unit_data_t`) is 7 bytes: it is packed,
  and `description` is a `uint16_t`.
- The Report Reference struct holds a C enum. Its size is the compiler's enum
  width, a parameter `w >= 1` here; GCC makes it 4, giving a 5-byte value
  where the HID service specification describes 2 bytes. The Protocol Mode
  value is likewise `w` bytes.

The module `GattServer` puts the callbacks behind one dispatcher, with the two
CCCD values as the server's state. It proves end-to-end facts, such as a CCCD
write followed by a read.

## Model

| member | source | states |
|---|---|---|
| `BleCccd.Encode` | main/ble_cccd.h:7-12 | The CCCD value is 2 bytes. Notify is bit 0 of byte 0, indicate is bit 1, bits 2-7 are reserved, and byte 1 is reserved. |
| `BleCccd.DecodeEncode` | main/ble_cccd.h:7-12 | Decoding an encoded CCCD gives back every field. |
| `BleCccd.Decode` | main/ble_cccd.h:7-12 | Every 2-byte image is the encoding of the CCCD it decodes to. |
| `BleUnit.Encode` | main/ble_unit.h:8-14 | The Presentation Format is 7 bytes in the order format, exponent, unit (little-endian), name space, description (little-endian). |
| `BleUnit.DecodeEncode` | main/ble_unit.h:8-14 | Decoding an encoded Presentation Format gives back every field. |
| `DeviceInfoLayout.Encode` | main/ble_device_info.h:9-14 | The PnP ID is 7 bytes. vid_src is at offset 0, and vid, pid and version are little-endian at offsets 1, 3 and 5. |
| `DeviceInfoLayout.DecodeEncode` | main/ble_device_info.h:9-14 | Decoding an encoded PnP ID gives back every field. |
| `DeviceInfoLayout.UuidsDistinct` | main/ble_device_info.h:5-7 | The service, manufacturer-name and PnP ID UUIDs are distinct. |
| `HidLayout.ReportTypeOf` | main/ble_hid.h:17-21 | The report-type codes are exactly 1, 2 and 3 (input, output, feature), and each code maps back to its type. |
| `HidLayout.ProtocolModeOf` | main/ble_hid.h:34-37 | The protocol-mode codes are exactly 0 (boot) and 1 (report), and each code maps back to its mode. |
| `HidLayout.EncodeInfo` | main/ble_hid.h:28-32 | HID Information is 4 bytes: version[2], country code, flags. |
| `HidLayout.DecodeEncodeInfo` | main/ble_hid.h:28-32 | Decoding encoded HID Information gives it back. |
| `HidLayout.EncodeReference` | main/ble_hid.h:23-26 | A Report Reference is 1 + w bytes: the report id, then the type code, then zeros up to the enum width. |
| `HidLayout.DecodeEncodeReference` | main/ble_hid.h:23-26 | Decoding an encoded Report Reference gives it back, for every enum width. |
| `HidLayout.DecodeEncodeProtocolMode` | main/ble_hid.h:34-37 | Decoding an encoded protocol mode gives it back, for every enum width. |
| `HidLayout.UuidsDistinct` | main/ble_hid.h:8-15 | The seven HID UUIDs are pairwise distinct. |
| `KeyboardReport.Encode` | main/ble_hid_data.h:9-13 | The keyboard report is 8 bytes: modifier, reserved, then keycode[0..5] at offsets 2..7. |
| `KeyboardReport.DecodeEncode` | main/ble_hid_data.h:9-13 | Decoding an encoded keyboard report gives back every field. |
| `ReportMap.ParseItems` | main/ble_hid.c:134-182 | Parsing a descriptor yields only well-formed short items. A prefix of item type 3 (reserved, or the long-item prefix) is refused. |
| `ReportMap.EncodeParseItems` | main/ble_hid.c:134-182 | Whatever the parser accepts is exactly the encoding of the items it returns, so no bytes are lost or invented. |
| `ReportMap.ParseEncodeItems` | main/ble_hid.c:134-182 | Parsing the encoding of any list of well-formed short items gives that list back. |
| `ReportMap.ParsesToItems` | main/ble_hid.c:134-182 | The 65-byte report map parses into exactly the item list the model names section by section. |
| `ReportMap.InputBits` | main/ble_hid.c:143-179 | The Input items declare 8x1 + 1x8 + 6x8 = 64 bits. |
| `ReportMap.OutputBits` | main/ble_hid.c:158-169 | The Output items declare 5 LED bits and 3 bits of padding, 8 bits in all. |
| `ReportMap.OnlyDefaultReportId` | main/ble_hid.c:140-141 | The report map declares one Report ID, the default 0x01. |
| `ReportMap.DeclaresKeyboardReport` | main/ble_hid.c:143-179 | The report map's Input bits are exactly the keyboard report struct's size. It has 8 Output bits and only Report ID 0x01. |
| `HidService.InfoAccess` | main/ble_hid.c:217-232 | A read appends {0x11,0x01,0x00,0x02} and returns 0, which decodes to the HID Information constant. A failed append returns its own status. Every other access returns UNLIKELY. |
| `HidService.ReportMapAccess` | main/ble_hid.c:233-248 | A read appends the whole 65-byte report map, which parses to the keyboard items. A failed append returns its own status. Any other access returns UNLIKELY. |
| `HidService.InputReportDscAccess` | main/ble_hid.c:268-325 | A Report Reference read appends id 0x01, type 0x01 and enum padding. A CCCD read appends the stored 2-byte CCCD. A failed append on either read returns its own status. A CCCD write succeeds exactly when at least 2 bytes came, and then stores a CCCD whose encoding is the first 2 bytes written; a shorter write returns -1. Report Reference writes, characteristic accesses and unknown UUIDs return UNLIKELY and change nothing. |
| `HidService.OutputReportAccess` | main/ble_hid.c:327-340 | Only a characteristic write succeeds, appending nothing. A read, despite the declared read flag, returns UNLIKELY. |
| `HidService.OutputReportDscAccess` | main/ble_hid.c:342-367 | Only a descriptor read of the Report Reference UUID is served, with id 0x01 and type 0x02, and it decodes back to the output descriptor. Everything else returns UNLIKELY. |
| `HidService.ProtocolModeAccess` | main/ble_hid.c:368-385 | A read appends w bytes, the first being 0x01, which decode to Report mode. A failed append returns its own status. Any other access returns UNLIKELY. |
| `HidService.Init` | main/ble_hid.c:201-215 | Registration is attempted only if counting the configuration returned 0. The first nonzero status is returned. |
| `BatteryService.LevelFormatBytes` | main/ble_battery.c:60-66 | The level's Presentation Format encodes as {0x04,0x00,0xAD,0x27,0x01,0x00,0x00}. |
| `BatteryService.LevelAccess` | main/ble_battery.c:84-95 | A read appends the single byte 100 and returns 0. A failed append returns INSUFFICIENT_RES. Any other access returns UNLIKELY. |
| `BatteryService.StoredCcc` | main/ble_battery.c:113-119 | Storing the little-endian 16-bit CCCD value in a uint8_t keeps its low byte. |
| `BatteryService.LevelDscAccess` | main/ble_battery.c:97-139 | A CCCD read appends the one stored byte. A write of two or more bytes stores the first and returns 0. A shorter write returns UNLIKELY and changes nothing. A format read appends the 7 format bytes. A failed append returns INSUFFICIENT_RES. Any other access or UUID returns UNLIKELY and changes nothing. |
| `BatteryService.Init` | main/ble_battery.c:68-82 | Registration is attempted only if counting the configuration returned 0. The first nonzero status is returned. |
| `DeviceInfoService.CStringBytes` | main/ble_device_info.c:70-71 | strlen of a NUL-terminated buffer measures the bytes before its first NUL: the result is a prefix of the buffer, holds no NUL, and the buffer has a NUL right after it. |
| `DeviceInfoService.ManufacturerAccess` | main/ble_device_info.c:66-77 | A read appends exactly "X" and returns 0. A failed append returns INSUFFICIENT_RES. Any other access returns UNLIKELY. |
| `DeviceInfoService.PnpIdAccess` | main/ble_device_info.c:79-88 | A read appends the 7 PnP ID bytes, which decode to the configured PnP ID. A failed append returns INSUFFICIENT_RES. Any other access returns UNLIKELY. |
| `DeviceInfoService.Init` | main/ble_device_info.c:51-64 | Registration is attempted only if counting the configuration returned 0. The first nonzero status is returned. |
| `GattServer.Handle` | main/ble_hid.c:39-123 | Attributes are routed as the HID table here and the Battery and Device Information tables (main/ble_battery.c:23-56, main/ble_device_info.c:17-41) set them up. Each access touches only the CCCD of the attribute it targets, and only a descriptor write changes any state. |
| `GattServer.NoOpCharacteristics` | main/ble_hid.c:250-266 | The control point and the input report characteristic return 0 on every access, append nothing and change nothing. |
| `GattServer.InputReportReferenceRead` | main/ble_hid.c:275-289 | Reading the input report's Report Reference yields report id 0x01, then type 0x01. |
| `GattServer.ReportReferenceWriteRejected` | main/ble_hid.c:321-324 | Writing either Report Reference returns UNLIKELY and changes nothing. |
| `GattServer.HidCccdWriteThenRead` | main/ble_hid.c:291-318 | After a successful 2-byte write to the input report's CCCD, a read returns exactly those 2 bytes. |
| `GattServer.HidCccdEnableNotifications` | main/ble_hid.c:307-318 | Writing {0x01,0x00} enables notify, leaves indicate off, and reads back as {0x01,0x00}. |
| `GattServer.BatteryCccdWriteThenRead` | main/ble_battery.c:103-123 | After a successful write to the battery CCCD, a read returns one byte, the low byte written. For {0x01,0x00} that is {0x01}. |
| `GattServer.BatteryCccdShortWrite` | main/ble_battery.c:113-118 | A battery CCCD write shorter than 2 bytes returns UNLIKELY and leaves the stored value unchanged. |
| `Stack.IssueStopsAtFirstFailure` | main/gap.c:19-49 | The calls issued are a prefix of the list. The status is 0 exactly when every checked call succeeded, and then every call was issued. Otherwise the status is that of the first failing checked call, which is the last one issued. |
| `Stack.SequenceAppend` | main/gap.c:19-49 | Running two call lists one after the other is running their concatenation. |
| `Gap.Init` | main/gap.c:19-49 | If setting the name fails, gap_init returns that status after the GAP init and the name call. It returns 0 exactly when the name and all six service registration calls succeed, and then the trace is the name, GATT, Device Information, Battery, HID sequence. |
| `Gap.InitIsSequence` | main/gap.c:19-49 | gap_init is exactly the first-failure pattern over the name, GATT, Device Information, Battery and HID steps. |
| `Gap.StartAdvertising` | main/gap.c:51-109 | Every call issued advertises flags DISC_GEN and BREDR_UNSUP, the HID UUID 0x1812 alone as a complete list, and appearance 0x03C1. The scan response carries the complete device name. Advertising is undirected connectable, general discoverable, forever, with the GAP event handler. The scan response is set only if the data was set, and advertising starts only if both were. |
| `Gap.StartAdvertisingIsSequence` | main/gap.c:51-109 | start_advertising is the first-failure pattern over its three calls. |
| `Stack.Utf8Length` | main/gap.c:86 | The bytes strlen counts for a name are between its character count and four times that, and equal its character count exactly when every character is ASCII. |
| `Gap.ScanResponseFits` | main/gap.c:84-90 | The scan response fits the 31-byte legacy payload exactly when the device name is at most 29 bytes as strlen counts them (its UTF-8 encoding). For an ASCII name that is 29 characters. |
| `Gap.AdvInit` | main/gap.c:111-121 | Ensuring an address always comes first. If it fails, nothing else is issued. Otherwise start_advertising follows. |
| `Gap.AdvInitIsSequence` | main/gap.c:111-121 | adv_init is the first-failure pattern over the address check followed by start_advertising's three calls. |
| `Gap.HandleEvent` | main/gap.c:123-181 | CONNECT stores the handle only when the status is 0, always initiates security on the stored handle and returns 0. DISCONNECT clears the handle and re-runs adv_init. Only REPEAT_PAIRING and SUBSCRIBE can return nonzero. REPEAT_PAIRING looks the connection up and returns a failed lookup's status; after a successful lookup it deletes the peer's bond and returns RETRY. MTU, ENC_CHANGE and unknown events change nothing. |
| `Gap.RepeatPairingOutcome` | main/gap.c:155-164 | If the connection lookup fails, the handler returns its status and deletes no bond. Otherwise it deletes the peer's bond and returns RETRY. |
| `Gap.FailedConnectUsesStoredHandle` | main/gap.c:127-133 | After a failed connection with no prior connection, security is initiated on the "no connection" handle. |
| `Gap.RunEventsKeepsLastConnection` | main/gap.c:123-181 | Over any event sequence, the stored handle is that of the last successful connection not followed by a disconnection, or the initial one. |
| `Gap.NoConnectionAfterDisconnect` | main/gap.c:140-144 | After a disconnection, and until a successful connection, the stored handle is NONE. |
| `KeyboardApp.FormatAddr` | main/idf-ble-keyboard.c:52-55 | The text is 17 characters, which with its NUL fit the 18-byte buffer. Characters at positions j % 3 == 2 are exactly the ':' separators. Pair i is the upper-case hex of addr[i], in order. |
| `KeyboardApp.ParseFormatAddr` | main/idf-ble-keyboard.c:52-55 | Reading the formatted text back gives the address. |
| `KeyboardApp.FormatParseAddr` | main/idf-ble-keyboard.c:52-55 | Every string of this shape is the formatting of the address it reads as. |
| `KeyboardApp.FormatAddrInjective` | main/idf-ble-keyboard.c:52-55 | Different addresses print differently. |
| `KeyboardApp.EspUriIsEspressifHttps` | main/idf-ble-keyboard.c:31-46 | The URI is 16 bytes: the https scheme code 0x17, then "//espressif.com". |
| `KeyboardApp.GapInit` | main/idf-ble-keyboard.c:113-130 | The GAP service is initialised first, its status unchecked; then the name is set, and the appearance 0x0200 is set only if naming succeeded. The first nonzero status is returned, and 0 only if both succeeded. |
| `KeyboardApp.StartAdvertising` | main/idf-ble-keyboard.c:160-213 | The data holds flags DISC_GEN and BREDR_UNSUP, the complete name, automatic TX power, appearance 0x0200 and the peripheral role. The scan response holds the device address with its type and the 16-byte URI starting 0x17. Advertising is non-connectable, general discoverable, forever, with no callback. A failed data call ends the run; the scan response is set only if the data was, and advertising starts only if both were. |
| `KeyboardApp.StartAdvertisingIsSequence` | main/idf-ble-keyboard.c:160-213 | start_advertising is the first-failure pattern over its three calls. |
| `KeyboardApp.PayloadsFit` | main/idf-ble-keyboard.c:167-194 | With this firmware's name, both payloads fit the 31-byte legacy limit (27 bytes each). |
| `KeyboardApp.AdvInit` | main/idf-ble-keyboard.c:132-158 | Ensure-address, infer-type and copy-address run in that order, each only if the previous one succeeded. Advertising begins only if all three succeeded, and then the run is those three calls followed by start_advertising's run, with the inferred type and the copied address. |
| `KeyboardApp.AdvInitIsSequence` | main/idf-ble-keyboard.c:132-158 | adv_init is the first-failure pattern over its three preparatory calls followed by start_advertising's three. |

## Left out

- Logging (`ESP_LOG*`, `ESP_LOG_BUFFER_HEX`): it has no effect on results. This includes the connection descriptor's encryption state, which the event handler only logs. It also includes the log line `format_addr` feeds, so the formatted address is modelled but not where it goes.
- NimBLE itself (`ble_gatts_*`, `ble_gap_*`, `ble_hs_*`, `ble_store_util_delete_peer`, handle assignment): calls into code that is not part of this model. Their statuses are oracle inputs, and the calls appear in a command trace.
- `os_mbuf_append`: its status is the `Access.appendRc` input, and the call is not recorded in any trace.
- `os_mbuf_copydata`: modelled by `Att.CopyData`. It copies the bytes that are there, then returns -1 if there are fewer than requested. Its status is computed, not an oracle input, and the call is not recorded in any trace.
- `ble_hs_id_infer_auto` and `ble_hs_id_copy_addr` return values through pointers; those values are the `KeyboardApp.Identity` input.
- `ble_svc_gap_device_name` is the device-name input. The name is text; its C bytes are taken to be its UTF-8 encoding, which is what `Stack.Utf8Length` measures.
- A failed append is modelled as appending nothing, because the stack discards the response when the callback returns nonzero.
- HidService.InputReportDscAccess: claims nothing about the stored CCCD after a write shorter than 2 bytes. The copy overwrites the bytes it has before failing; the model computes that partial overlay but states no property about it.
- HidService.ControlPointAccess: has no contract of its own. `GattServer.NoOpCharacteristics` states that it returns 0, appends nothing and changes nothing.
- HidService.InputReportAccess: has no contract of its own, for the same reason; `GattServer.NoOpCharacteristics` covers it too.
- The static service-definition tables (`hid_defs`, `device_info_defs`) are not modelled as registration data. Only the attribute routing they set up (`GattServer.Handle`) and the UUIDs the callbacks branch on are modelled.
- The characteristic permission flags are not modelled: NimBLE checks them before a callback runs.
- Sending notifications, tracking encryption and resetting CCCDs on disconnection: no code in the core does any of these. `ble_hid_send_report` is declared in `main/ble_hid.h` but never defined.
- `main/ble_battery.h`, which defines the Battery Service and Battery Level UUIDs, is not part of this model. The battery callbacks are modelled over the descriptor UUIDs they branch on.
- `main/main.c`, `main/main.cpp`, `main/ble_module.c`, `app_main`, `nimble_host_config_init`, `nimble_host_task` and the reset and sync callbacks are platform bring-up with no logic of their own. They cover NVS flash, port init, FreeRTOS tasks and security-manager flags.
- Concurrency: the callbacks and the event handler run one at a time on the host task.
- `Stack.AdLength` counts each advertising field as one AD structure, following the Core Specification Supplement, Part A, section 1. It does not model NimBLE's encoder beyond that.
