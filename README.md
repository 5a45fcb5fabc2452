# Remote Wiring: the host side of Firmata, modelled in Dafny

Remote Wiring lets a Windows application drive the pins of an Arduino-class
board over a serial, Bluetooth or network link. The board runs Firmata
firmware. The host talks the Firmata 2.4 wire protocol:

- every data byte carries seven bits;
- a command byte has its top bit set, and channel commands carry the pin or
  port in the low nibble;
- longer messages travel as "sysex" frames between START_SYSEX (0xF0) and
  END_SYSEX (0xF7).

This project models the host-side core of the library and proves what it
promises.

- **The Firmata engine** (`FirmataClass`, module `Firmata`):
  - the encoders that write analog, digital and sysex frames and the
    firmware report;
  - the callback table;
  - the byte-at-a-time input parser `processInput` with its sysex dispatcher.

  The parser is a pure step function on a `Parser` value. The class keeps
  the parser's fields and the 64-byte `storedInputData` array and is proved
  to follow that step function. Module `FirmataLaws` proves the round trips:
  every frame the encoders write is parsed back into the callback it stands
  for, whatever channel message was pending before it, provided no sysex
  message is open. Inside an open sysex message the frame's bytes are stored
  as payload instead. The analog and digital frames carry values below 16384.
  The sysex frame carries at most 31 data bytes and a command below 128 other
  than REPORT_FIRMWARE and STRING_DATA, which the parser handles itself. The
  firmware report that `printFirmwareVersion` writes is not fed back into the
  parser.
- **The Windows wrapper** (`UwpFirmata`, with two identical copies
  `UapFirmata` and `UAPFirmataClient`; module `UwpFirmata`):
  - the reassembly of 7-bit pairs into bytes done by `sysexInvoke`, in place
    on the argument array;
  - the sysex and blob builder, with its shared 31-byte buffer;
  - the I2C request frames.
- **The remote device** (`RemoteDevice`, module `RemoteDevices`):
  - the pin-state cache of 16 digital port bytes, 16 subscription bytes, 6
    analog readings and 128 cached pin modes, kept in arrays;
  - `pinMode`, `digitalWrite`, `digitalRead`, `analogWrite`, `analogRead`
    and the string overloads that parse names like "A3";
  - the two report callbacks;
  - `initialize`;
  - the device's own copy of the capability-response scan.

  Each operation is a method proved against a pure `...Effect` function that
  returns the new cache and the bytes written. Lemmas state what each
  operation means.
- **The hardware profile** (`HardwareProfile`, module `HardwareProfiles`):
  its two constructors, `initializeWithFirmata`, the capability bit queries
  and the six pin-list properties.
- **The capability-response scan** (module `CapabilityScan`): the nested
  loop shared by the hardware profile and the remote device.
  - Its byte-consumption rule is a parameter (`Dialect`).
  - It is proved against a group-by-group reference fold over encoded boards.
  - The as-written copies lose pins on payloads the corrected scan reads
    correctly; see "## Findings".
- **The older `RemoteWiring` class** (module `LegacyWiring`): two arrays, a
  port cache and a pin-mode table, and the five pin calls.
- **The I2C front end `TwoWire`** (module `TwoWire`): which calls reach the
  Firmata client, and with what arguments.

Bytes written to the serial stream are appended to an `output` sequence.
Callbacks and events are returned as values rather than invoked.

## Model

| member | source | states |
|---|---|---|
| Protocol.CommandByte | source/Firmata/Firmata/Firmata.cpp:333-352 | a channel command puts the command code in the high nibble and the pin or port, modulo 16, in the low nibble |
| Protocol.ChannelCommandRecoverable | source/Firmata/Firmata/Firmata.cpp:291-303 | the parser's split of a command byte recovers exactly the command and channel the sender combined; two different (command, channel) pairs never share a byte |
| Protocol.TwoSevenBit | source/Firmata/Firmata/Firmata.cpp:27-34 | a value goes out as two bytes below 128, low seven bits first; every value below 16384 is recovered as low + 128 * high |
| Firmata.ResetParser | source/Firmata/Firmata/Firmata.cpp:480-501 | a reset parser waits for nothing, is outside any sysex message, has channel and pending command 0 and a zeroed 64-byte buffer |
| Firmata.Encode7 | source/Firmata/Firmata/Firmata.cpp:356-370 | each value becomes two bytes, its low seven bits then the next seven; every byte is below 128 |
| Firmata.AnalogFrame | source/Firmata/Firmata/Firmata.cpp:333-341 | `sendAnalog` writes three bytes: ANALOG_MESSAGE with the pin's channel, then the value as two 7-bit bytes |
| Firmata.DigitalFrame | source/Firmata/Firmata/Firmata.cpp:345-352 | `sendDigitalPort` writes three bytes: DIGITAL_MESSAGE with the port's channel, then the port value as two 7-bit bytes |
| Firmata.SysexFrame | source/Firmata/Firmata/Firmata.cpp:356-370 | `sendSysex` writes START_SYSEX, the command, the 7-bit pairs of every data byte and END_SYSEX |
| Firmata.FirmwareReport | source/Firmata/Firmata/Firmata.cpp:109-127 | nothing is sent before a firmware name is set; otherwise one REPORT_FIRMWARE sysex of 2 * count + 1 bytes |
| Firmata.NamedFirmware | source/Firmata/Firmata/Firmata.cpp:154-169 | the intended record, the corrected half of a finding: the count is the name length plus two cast to a byte, and the vector of count + 1 bytes holds the version, the name and a zero; a name of up to 253 bytes is kept whole, a longer one wraps the count and is cut to fit |
| Firmata.NameCopyRejected | source/Firmata/Firmata/Firmata.cpp:169 | the room the count leaves for the name never exceeds the name's length, and `strncpy_s` rejects the copy of every name, because the destination size equals the number of characters copied |
| Firmata.StoredFirmware | source/Firmata/Firmata/Firmata.cpp:154-169 | what is recorded as written: the intended count, and a zero-filled vector of count + 1 bytes that holds only the version |
| Firmata.AttachSlot | source/Firmata/Firmata/Firmata.cpp:402-451 | which callback each `attach` overload fills: the plain one only for the five channel commands, the reset one only for SYSTEM_RESET, the string one only for STRING_DATA, the sysex one for any command |
| Firmata.DetachSlot | source/Firmata/Firmata/Firmata.cpp:455-473 | `detach` clears the sysex callback exactly for START_SYSEX and otherwise the slot the plain `attach` of that command fills |
| Firmata.Dispatch | source/Firmata/Firmata/Firmata.cpp:257-288 | a completed channel message fires at most one callback |
| Firmata.StringDecode | source/Firmata/Firmata/Firmata.cpp:195-214 | the first n buffer entries become the recombined pairs; the string ends with a zero (written after the last decoded byte unless that byte is zero); later entries are untouched |
| Firmata.CString | source/Firmata/Firmata/Firmata.cpp:215 | the string the callback sees is the longest zero-free prefix of the buffer, stopped by its first zero |
| Firmata.SysexDispatch | source/Firmata/Firmata/Firmata.cpp:183-222 | processing a sysex message keeps the 64-byte buffer and fires at most one callback |
| Firmata.Step | source/Firmata/Firmata/Firmata.cpp:226-329 | one input byte keeps the parser well formed and fires at most one callback |
| Firmata.CommandStep | source/Firmata/Firmata/Firmata.cpp:291-328 | a command byte keeps the parser well formed and fires at most one callback |
| Firmata.Feed | source/Firmata/Firmata/Firmata.cpp:226-329 | feeding a run of bytes one `processInput` at a time keeps the parser well formed |
| Firmata.FirmataClass.constructor | source/Firmata/Firmata/Firmata.cpp:57-64 | a new engine has a reset parser, no callbacks, no firmware name and has written nothing |
| Firmata.FirmataClass.SystemReset | source/Firmata/Firmata/Firmata.cpp:480-501 | the parser is reset, the reset callback fires if attached, and nothing else changes |
| Firmata.FirmataClass.Write | source/Firmata/Firmata/Firmata.cpp:393-398 | appends one byte to the stream |
| Firmata.FirmataClass.StartSysex | source/Firmata/Firmata/Firmata.cpp:37-42 | appends START_SYSEX |
| Firmata.FirmataClass.EndSysex | source/Firmata/Firmata/Firmata.cpp:45-50 | appends END_SYSEX |
| Firmata.FirmataClass.SendValueAsTwo7bitBytes | source/Firmata/Firmata/Firmata.cpp:27-34 | appends the two 7-bit bytes of the value |
| Firmata.FirmataClass.SendAnalog | source/Firmata/Firmata/Firmata.cpp:333-341 | appends the analog frame |
| Firmata.FirmataClass.SendDigitalPort | source/Firmata/Firmata/Firmata.cpp:345-352 | appends the digital frame |
| Firmata.FirmataClass.SendSysex | source/Firmata/Firmata/Firmata.cpp:356-370 | appends the sysex frame of the first `bytec` bytes of the array |
| Firmata.FirmataClass.SendValues | source/Firmata/Firmata/Firmata.cpp:365-368 | the loop over the data bytes appends exactly their 7-bit encoding |
| Firmata.FirmataClass.SetFirmwareNameAndVersion | source/Firmata/Firmata/Firmata.cpp:131-170 | the recorded count and vector are `StoredFirmware` of the arguments |
| Firmata.FirmataClass.PrintFirmwareVersion | source/Firmata/Firmata/Firmata.cpp:109-127 | appends the firmware report of the current name and version |
| Firmata.FirmataClass.Attach | source/Firmata/Firmata/Firmata.cpp:402-451 | the attached set gains the slot `AttachSlot` names, or is unchanged for a command the overload ignores |
| Firmata.FirmataClass.Detach | source/Firmata/Firmata/Firmata.cpp:455-473 | the attached set loses the slot `DetachSlot` names, or is unchanged |
| Firmata.FirmataClass.DecodeStringInPlace | source/Firmata/Firmata/Firmata.cpp:195-214 | the in-place loop leaves the buffer equal to `StringDecode` of the old buffer |
| Firmata.FirmataClass.ProcessSysexMessage | source/Firmata/Firmata/Firmata.cpp:183-222 | the buffer, the callbacks fired and the bytes written are those of `SysexDispatch` |
| Firmata.FirmataClass.ProcessInput | source/Firmata/Firmata/Firmata.cpp:226-329 | the parser fields, buffer, events and output follow `Step` exactly; callbacks and firmware are untouched |
| Firmata.FirmataClass.ProcessCommand | source/Firmata/Firmata/Firmata.cpp:291-328 | the command branch of `processInput` follows `CommandStep` |
| FirmataLaws.FeedAppend | source/Firmata/Firmata/Firmata.cpp:226-329 | feeding one run and then another is feeding their concatenation: the events and output of the two runs are concatenated |
| FirmataLaws.ThreeByteMessage | source/Firmata/Firmata/Firmata.cpp:251-328 | outside a sysex, a command byte of a two-data-byte message followed by two data bytes fires its callback once, with the first data byte stored second; the parser ends idle |
| FirmataLaws.AnalogRoundTrip | source/Firmata/Firmata/Firmata.cpp:251-341 | the frame `sendAnalog` writes fires the analog callback with the same channel and 14-bit value, and nothing else |
| FirmataLaws.DigitalRoundTrip | source/Firmata/Firmata/Firmata.cpp:251-352 | the frame `sendDigitalPort` writes fires the digital callback with the same port and 14-bit value |
| FirmataLaws.PinModeRoundTrip | source/Firmata/Firmata/Firmata.cpp:275-311 | SET_PIN_MODE, pin, mode fires the pin-mode callback with the pin first and the mode second |
| FirmataLaws.ReportRoundTrip | source/Firmata/Firmata/Firmata.cpp:279-316 | a REPORT_ANALOG or REPORT_DIGITAL command with one data byte fires its own callback with the channel and that byte |
| FirmataLaws.SysexAccumulate | source/Firmata/Firmata/Firmata.cpp:235-250 | inside a sysex, every byte but END_SYSEX is appended to the buffer in order and nothing fires |
| FirmataLaws.SysexRoundTrip | source/Firmata/Firmata/Firmata.cpp:218-250 | a sysex frame whose command the parser does not handle itself fires the sysex callback with that command, the count of 7-bit bytes, and a buffer starting with the pairs sent |
| FirmataLaws.StringPairsRecovered | source/Firmata/Firmata/Firmata.cpp:195-215 | text without zero bytes survives the 7-bit pairing: decoding and stopping at the terminator gives exactly the characters sent |
| FirmataLaws.StringRoundTrip | source/Firmata/Firmata/Firmata.cpp:192-217 | a STRING_DATA frame of non-zero characters fires the string callback with exactly those characters |
| FirmataLaws.FirmwareQueryAnswered | source/Firmata/Firmata/Firmata.cpp:189-191 | a REPORT_FIRMWARE query is answered on the stream with the firmware report and fires no callback |
| FirmataLaws.SystemResetOnlyOutsideSysex | source/Firmata/Firmata/Firmata.cpp:235-323 | SYSTEM_RESET resets the parser whatever it was waiting for, except inside a sysex message, where it is stored as a payload byte |
| FirmataLaws.UnknownCommandIgnored | source/Firmata/Firmata/Firmata.cpp:291-328 | an unknown command byte fires and writes nothing; below 0xF0 only its channel nibble is kept, and from 0xF0 up (REPORT_VERSION and a stray END_SYSEX among them) the parser is left exactly as it was; a pending message stays pending |
| FirmataLaws.NoDataIgnored | source/Firmata/Firmata/Firmata.cpp:234 | a read that found no data (0xFFFF) leaves the parser unchanged and fires and writes nothing, even in the middle of a message |
| FirmataLaws.NamedFirmwareReported | source/Firmata/Firmata/Firmata.cpp:109-170 | with the intended copy, a name of up to 253 bytes is reported whole: the version raw, then every name byte as a 7-bit pair |
| FirmataLaws.StoredFirmwareReported | source/Firmata/Firmata/Firmata.cpp:109-170 | as written, a name of up to 253 bytes is reported as the version followed by one zero pair per name byte |
| FirmataLaws.StoredFirmwareLosesName | source/Firmata/Firmata/Firmata.cpp:109-170 | for every name with a non-zero byte the as-written report differs from the intended one |
| FirmataLaws.DetachUndoesAttach | source/Firmata/Firmata/Firmata.cpp:402-473 | `detach` undoes `attach` for every overload except the sysex one, which is cleared only under START_SYSEX |
| UwpFirmata.Reassemble | source/Firmata/UwpFirmata.h:373-378 | byte k of the payload is pair k recombined, low seven bits first |
| UwpFirmata.Reassembled | source/Firmata/UwpFirmata.h:373-379 | after the loop the buffer holds the recombined bytes, a zero, then the untouched rest |
| UwpFirmata.EvenCount | source/Firmata/UwpFirmata.h:370-371 | an odd trailing byte is dropped: the count becomes even and shrinks by at most one |
| UwpFirmata.Invoke | source/Firmata/UwpFirmata.h:356-401 | no event exactly when the reassembly, its terminator or an I2C reply's address and register would fall outside the argument buffer; otherwise an I2C reply carries the first two bytes as address and register and the rest as data, and any other sysex carries every reassembled byte |
| UwpFirmata.ReassembleInPlace | source/Firmata/UwpFirmata.h:370-379 | returns the byte count; when the loop and its terminator stay inside the array it leaves the array equal to `Reassembled` of its old contents, and otherwise reports that and leaves the array alone |
| UwpFirmata.SysexInvoke | source/Firmata/UwpFirmata.h:356-401 | the event raised is `Invoke` of the old contents; when there is one the array is reassembled in place, and when there is none the array is untouched |
| UwpFirmata.PairInvertsTwoSevenBit | source/Firmata/UwpFirmata.h:377 | every byte sent with `sendValueAsTwo7bitBytes` is recovered by the pair recombination |
| UwpFirmata.PairInvertsSignedChar | source/Firmata/UwpFirmata.cpp:333-356 | a `char` sign-extended before it is split into two 7-bit bytes is still recovered as the same byte |
| UwpFirmata.ReassembleInvertsEncode7 | source/Firmata/UwpFirmata.h:373-379 | reassembly inverts the 7-bit encoding of a whole payload |
| UwpFirmata.InvokeRoundTrip | source/Firmata/UwpFirmata.h:392-400 | a non-I2C sysex whose payload encodes some bytes raises a sysex event with exactly those bytes |
| UwpFirmata.I2cReplyRoundTrip | source/Firmata/UwpFirmata.h:382-391 | an I2C reply encoding address, register and data raises an I2C event with exactly those three |
| UwpFirmata.SysexCountInBounds | source/Firmata/Firmata/Firmata.cpp:218-220 | the count `sysexBytesRead - 1` handed to the sysex callback keeps `sysexInvoke` inside the 63 bytes after the command exactly when the sysex held at least its command byte |
| UwpFirmata.EmptySysexOverruns | source/Firmata/Firmata/Firmata.cpp:218-220 | an empty sysex reaches the sysex callback with the stale command byte and a count of 255, for which `sysexInvoke` would leave the argument buffer |
| UwpFirmata.CountedArgc | source/Firmata/Firmata/Firmata.cpp:218-220 | the corrected count: zero for an empty sysex, `sysexBytesRead - 1` otherwise |
| UwpFirmata.CountedArgcInBounds | source/Firmata/UwpFirmata.h:356-401 | with the corrected count every finished sysex keeps `sysexInvoke` inside the argument buffer, and an empty one raises an empty payload |
| UwpFirmata.BlobFrame | source/Firmata/UwpFirmata.cpp:251-267 | a blob frame is START_SYSEX, the blob command, the raw bytes and END_SYSEX |
| UwpFirmata.BeginSysexEffect | source/Firmata/UwpFirmata.cpp:176-184 | `beginSysex` succeeds exactly when no blob is open; it then records the command with no pending bytes (command 0 leaves the builder closed, so later appends and `endSysex` fail) and writes nothing |
| UwpFirmata.AppendSysexEffect | source/Firmata/UwpFirmata.cpp:188-199 | `appendSysex` succeeds exactly when a sysex is open, no blob is open and fewer than 15 bytes are pending; it then adds the byte to the pending bytes |
| UwpFirmata.EndSysexEffect | source/Firmata/UwpFirmata.cpp:203-215 | `endSysex` succeeds exactly when a sysex is open and no blob is; it sends the sysex frame of the pending bytes and closes the builder |
| UwpFirmata.BeginBlobEffect | source/Firmata/UwpFirmata.cpp:219-228 | `beginBlob` succeeds exactly when no sysex is open and opens an empty blob |
| UwpFirmata.AppendBlobEffect | source/Firmata/UwpFirmata.cpp:232-247 | `appendBlob` succeeds exactly when a blob and no sysex is open; it stores the byte's low seven bits, first flushing a full 31-byte buffer as one blob |
| UwpFirmata.EndBlobEffect | source/Firmata/UwpFirmata.cpp:251-267 | `endBlob` succeeds exactly when a blob and no sysex is open; it sends the pending bytes raw as one blob and closes the blob |
| UwpFirmata.AppendSysexAllBuffers | source/Firmata/UapFirmata.cpp:188-199 | with a sysex open and room for every byte, every append succeeds and the bytes are buffered in order |
| UwpFirmata.SysexSession | source/Firmata/UapFirmata.cpp:176-215 | `beginSysex(c)`, up to 15 appends and `endSysex` succeed and send exactly one sysex frame of c and the appended bytes |
| UwpFirmata.BlobFrames | source/Firmata/UapFirmata.cpp:232-267 | a run of at most 31 bytes goes out as a single blob |
| UwpFirmata.BlobChunks | source/Firmata/UapFirmata.cpp:219-267 | appending any run of bytes to an open blob and then ending it sends the pending and masked bytes as consecutive blobs of at most 31 bytes |
| UwpFirmata.SignedChar | source/Firmata/UAPFirmataClient.cpp:333-356 | a data byte is passed on as a signed `char`, the value between -128 and 127 with the same low eight bits |
| UwpFirmata.I2cRequestFrame | source/Firmata/UAPFirmataClient.cpp:333-356 | `sendI2cSysex` writes an I2C_REQUEST sysex with the address and mode byte, the register pair only when a register is given, and two bytes per data byte |
| UwpFirmata.ReadRequest | source/Firmata/UAPFirmataClient.cpp:306-316 | `readI2c` sends nothing exactly for a continuous read without a register; otherwise one request with the continuous or one-shot read mode and the byte count |
| UwpFirmata.CodeUnits | source/Firmata/UwpFirmata.cpp:297-299 | a character below U+10000 is one UTF-16 code unit equal to it, one above is two; a unit is zero only for NUL |
| UwpFirmata.Utf16 | source/Firmata/UwpFirmata.cpp:297-299 | the code units of a string number at least its characters, are 16-bit, and include a zero exactly when the string holds a NUL |
| UwpFirmata.Narrow | source/Firmata/UAPFirmataClient.cpp:292-302 | `Length()` bytes of the narrowed copy stay inside the copy and its terminator exactly when no NUL comes before the last code unit, and are then the low eight bits of every code unit; otherwise None |
| UwpFirmata.NarrowBasicPlane | source/Firmata/UwpFirmata.cpp:297-301 | a message free of NUL and of characters above U+FFFF is sent as one byte per character, its low eight bits |
| UwpFirmata.EmbeddedNulOverruns | source/Firmata/UwpFirmata.cpp:297-301 | a NUL with any character after it makes the send read past the narrowed copy |
| UwpFirmata.UwpFirmata.constructor | source/Firmata/UwpFirmata.cpp:22-35 | the builder starts idle with a 31-byte buffer, and the digital, analog and sysex callbacks are attached |
| UwpFirmata.UwpFirmata.BeginSysex | source/Firmata/UwpFirmata.cpp:176-184 | the builder state and result follow `BeginSysexEffect` |
| UwpFirmata.UwpFirmata.AppendSysex | source/Firmata/UwpFirmata.cpp:188-199 | the builder state and result follow `AppendSysexEffect` |
| UwpFirmata.UwpFirmata.EndSysex | source/Firmata/UwpFirmata.cpp:203-215 | builder state, result and bytes written follow `EndSysexEffect` |
| UwpFirmata.UwpFirmata.BeginBlob | source/Firmata/UwpFirmata.cpp:219-228 | the builder state and result follow `BeginBlobEffect` |
| UwpFirmata.UwpFirmata.AppendBlob | source/Firmata/UwpFirmata.cpp:232-247 | builder state, result and bytes written follow `AppendBlobEffect` |
| UwpFirmata.UwpFirmata.EndBlob | source/Firmata/UwpFirmata.cpp:251-267 | builder state, result and bytes written follow `EndBlobEffect` |
| UwpFirmata.UwpFirmata.SetDigitalReadEnabled | source/Firmata/UwpFirmata.cpp:142-149 | writes REPORT_DIGITAL_PIN with the port in the low nibble, then the enable byte |
| UwpFirmata.UwpFirmata.EnableI2c | source/Firmata/UwpFirmata.cpp:280-288 | writes an I2C_CONFIG sysex carrying the read delay as one 7-bit pair |
| UwpFirmata.UwpFirmata.SendI2cSysex | source/Firmata/UwpFirmata.cpp:333-356 | writes exactly `I2cRequestFrame` |
| UwpFirmata.UwpFirmata.WriteI2c | source/Firmata/UwpFirmata.cpp:292-302 | writes the I2C write request of the narrowed message, without a register, and nothing for a message whose narrowing would be read past |
| UwpFirmata.UwpFirmata.ReadI2c | source/Firmata/UwpFirmata.cpp:306-316 | writes exactly `ReadRequest` |
| UwpFirmata.UwpFirmata.StopI2c | source/Firmata/UwpFirmata.cpp:320-325 | writes the stop-reading request for the address, with no register and no data |
| CapabilityScan.Advance | source/RemoteWiring/HardwareProfile.cpp:102-166 | ANALOG always consumes a (mode, resolution) pair; the corrected scan consumes a pair for every mode |
| CapabilityScan.Group | source/RemoteWiring/HardwareProfile.cpp:100-167 | the inner loop never moves backwards and stops on the end-of-pin marker or at the end of the payload |
| CapabilityScan.ScanCounts | source/RemoteWiring/HardwareProfile.cpp:94-169 | the nested loop leaves the three 8-bit counters equal to the reference `Scan` of the payload |
| CapabilityScan.ScanGroup | source/RemoteWiring/HardwareProfile.cpp:100-167 | the inner `while` stops where `Group` says, with the counters `Group` computes |
| CapabilityScan.GroupEncoded | source/RemoteWiring/HardwareProfile.cpp:100-167 | on a well-formed pin group the inner loop stops exactly on its marker, having noted every ANALOG entry |
| CapabilityScan.PinsEncoded | source/RemoteWiring/HardwareProfile.cpp:98-169 | scanning an encoded board is the group-by-group reference fold |
| CapabilityScan.ScanEncoded | source/RemoteWiring/HardwareProfile.cpp:94-169 | the whole scan of an encoded board, from zeroed counters, is the reference fold |
| CapabilityScan.FoldKeepsOffset | source/RemoteWiring/HardwareProfile.cpp:147-150 | once the analog offset is non-zero it is never overwritten |
| CapabilityScan.ScanCountsPins | source/RemoteWiring/HardwareProfile.cpp:168 | TotalPinCount is the number of pin groups, modulo 256 because the counter is a byte |
| CapabilityScan.ScanCountsAnalog | source/RemoteWiring/HardwareProfile.cpp:144-151 | AnalogPinCount is the number of ANALOG entries, modulo 256 |
| CapabilityScan.ScanAnalogOffset | source/RemoteWiring/HardwareProfile.cpp:144-150 | AnalogOffset is the first analog-capable pin above pin 0 |
| CapabilityScan.ScanOffsetUnset | source/RemoteWiring/HardwareProfile.cpp:144-150 | with no analog pin above 0, AnalogOffset stays 0 |
| CapabilityScan.AnalogBoard | Microsoft.Maker.win10/RemoteWiringUnitTests/HardwareProfileTests.cs:16-99 | a board of n pins that are analog from pin `first` on reports n pins, n - first analog pins and offset `first` (0 when none; 1 when every pin is analog) |
| CapabilityScan.AnalogPinZeroSkipped | source/RemoteWiring/HardwareProfile.cpp:147-150 | when pins 0 and 1 are both analog, the offset lands on pin 1: pin 0 cannot be recorded, because 0 means "not yet seen" |
| CapabilityScan.ProfileScanDesync | source/RemoteWiring/HardwareProfile.cpp:162-165 | the hardware-profile scan reads a two-pin payload whose first pin declares mode 7 as a single pin |
| CapabilityScan.DeviceScanDesync | source/RemoteWiring/RemoteDevice.cpp:551-554 | the remote-device scan reads a two-pin payload whose first pin declares INPUT as a single pin |
| CapabilityScan.PairScanCountsPins | source/RemoteWiring/HardwareProfile.cpp:98-169 | the corrected scan, which reads every mode as a pair, counts one pin per group and every ANALOG entry on every payload whose modes avoid the marker |
| HardwareProfiles.Bitmask | source/RemoteWiring/HardwareProfile.h:250-258 | the bitmask of a pin is 0 when the profile is invalid or the pin is outside it |
| HardwareProfiles.PinsShape | source/RemoteWiring/HardwareProfile.h:99-209 | every pin list is empty for an invalid profile and strictly ascending; a pin is listed exactly when it is in the list's range and passes the list's test |
| HardwareProfiles.ListsMeaning | source/RemoteWiring/HardwareProfile.h:99-152 | DigitalPins are exactly the output-capable pins, DisabledPins exactly those with no capability, and AnalogPins the analog-capable pins from the analog offset on |
| HardwareProfiles.CapabilityBits | source/RemoteWiring/HardwareProfile.h:43-52 | the seven PinCapability values are distinct single bits |
| HardwareProfiles.QueriesOutsideProfile | source/RemoteWiring/HardwareProfile.h:250-328 | an invalid profile or out-of-range pin answers bitmask 0 and false to every capability query |
| HardwareProfiles.AllOrNoCapabilities | Microsoft.Maker.win10/RemoteWiringUnitTests/HardwareProfileTests.cs:159-246 | a pin declaring all seven capabilities answers true to every query; a pin declaring none answers false and is listed as disabled |
| HardwareProfiles.NestedRanges | Microsoft.Maker.win10/RemoteWiringUnitTests/HardwareProfileTests.cs:102-155 | the ten-pin board with nested capability ranges lists 1 analog, 2 digital, 3 I2C, 4 PWM, 5 servo and 5 disabled pins |
| HardwareProfiles.HardwareProfile.FromBuffer | source/RemoteWiring/HardwareProfile.cpp:36-52 | a null buffer leaves an invalid, empty profile; any other buffer gives a valid profile with the scanned counts |
| HardwareProfiles.HardwareProfile.FromCounts | source/RemoteWiring/HardwareProfile.cpp:54-63 | an invalid profile with total = digital + analog, offset = digital and the analog count |
| HardwareProfiles.HardwareProfile.InitializeWithFirmata | source/RemoteWiring/HardwareProfile.cpp:76-176 | a null buffer changes nothing; any other buffer makes the profile valid with the three scanned counts |
| HardwareProfiles.ProfileOfBoard | source/RemoteWiring/HardwareProfile.cpp:98-169 | a payload declaring only the modes the hardware-profile scan reads as pairs gives one pin per group and every ANALOG entry |
| RemoteDevices.PinMap | source/RemoteWiring/RemoteDevice.cpp:406-420 | the port is pin / 8 and the mask is non-zero |
| RemoteDevices.PinMapLaw | source/RemoteWiring/RemoteDevice.cpp:406-420 | the mask has exactly one bit set, and bit k of port p is pin 8p + k |
| RemoteDevices.SubscriptionLaw | source/RemoteWiring/RemoteDevice.cpp:251-265 | after `pinMode` the pin's subscription bit is set if the new mode is INPUT, cleared if the old mode was INPUT, and otherwise unchanged; other bits are untouched |
| RemoteDevices.PinModeLaw | source/RemoteWiring/RemoteDevice.cpp:232-283 | after `pinMode(p, m)` the cached mode of p is m; no other pin's mode, no other port and no analog reading changes; a pin newly entering OUTPUT reads LOW |
| RemoteDevices.SendModeKeeps | source/RemoteWiring/RemoteDevice.cpp:244-268 | the locked part of `pinMode` changes only the subscription byte of the pin's port |
| RemoteDevices.SettleModeLaw | source/RemoteWiring/RemoteDevice.cpp:274-281 | the end of `pinMode` records the mode, clears the pin's bit only when it newly enters OUTPUT, and touches nothing else |
| RemoteDevices.PinModeSent | source/RemoteWiring/RemoteDevice.cpp:247-265 | `pinMode` always sends SET_PIN_MODE, pin, mode, and also sends the port's new subscription exactly when INPUT is entered or left |
| RemoteDevices.DigitalWriteLaw | source/RemoteWiring/RemoteDevice.cpp:174-203 | `digitalWrite` does nothing unless the pin is OUTPUT or PWM; otherwise the pin ends in OUTPUT with its bit following the state, and every other bit and port is kept |
| RemoteDevices.DigitalWriteSent | source/RemoteWiring/RemoteDevice.cpp:194-201 | the whole new port byte is sent last as a digital frame; an OUTPUT pin sends nothing else |
| RemoteDevices.DigitalReadLaw | source/RemoteWiring/RemoteDevice.cpp:152-170 | `digitalRead` answers the cached bit of the pin; only an ANALOG pin is switched (to INPUT), and only then is anything sent |
| RemoteDevices.AnalogWriteLaw | source/RemoteWiring/RemoteDevice.cpp:129-148 | `analogWrite` does nothing unless the pin is PWM or OUTPUT; otherwise the pin ends in PWM and the analog frame of the value is sent last, alone when the pin was already PWM |
| RemoteDevices.AnalogReadLaw | source/RemoteWiring/RemoteDevice.cpp:91-126 | `analogRead` answers the cached reading of the named analog pin when that pin is ANALOG or INPUT and within the analog count, and 0xFFFF otherwise; an INPUT pin is left in ANALOG, and only then is anything sent |
| RemoteDevices.MergedPortLaw | source/RemoteWiring/RemoteDevice.cpp:317-325 | the merged port keeps every unsubscribed HIGH bit and takes every subscribed bit from the report |
| RemoteDevices.DigitalReportEvents | source/RemoteWiring/RemoteDevice.cpp:321-338 | a digital report raises exactly one event per pin whose bit changed, in ascending pin order, each carrying the pin's new level |
| RemoteDevices.ReportChanges | source/RemoteWiring/RemoteDevice.cpp:328-338 | the shift loop emits exactly the reference list of changed-pin events |
| RemoteDevices.Wcstol | source/RemoteWiring/RemoteDevice.cpp:609 | `wcstol` clamps its result to the range of a 32-bit `long` |
| RemoteDevices.ParsePin | source/RemoteWiring/RemoteDevice.cpp:593-617 | a null name, a name shorter than two characters, one not starting with 'a' or 'A', or one whose number converts to 0 without a leading '0' gives the error value 255 |
| RemoteDevices.WcstolDigits | source/RemoteWiring/RemoteDevice.cpp:609 | a plain run of digits within the range of `long` converts to the number it spells |
| RemoteDevices.WcstolUnsigned | source/RemoteWiring/RemoteDevice.cpp:609 | text starting with a digit converts to the number its leading digits spell, clamped at the `long` maximum |
| RemoteDevices.AnalogNameRoundTrip | source/RemoteWiring/RemoteDevice.cpp:593-617 | the name "A" or "a" followed by the decimal spelling of n parses to n modulo 256 |
| RemoteDevices.NamedPinLaw | source/RemoteWiring/RemoteDevice.cpp:217-298 | for n < 255 the name "A<n>" reaches the cached pin n + analog offset in both `getPinMode` and `pinMode` |
| RemoteDevices.NamedPinAliasesError | source/RemoteWiring/RemoteDevice.cpp:612-616 | a name whose number is 255 modulo 256 is taken for a parse error: `getPinMode` answers IGNORED and `pinMode` does nothing |
| RemoteDevices.RemoteDevice.constructor | source/RemoteWiring/RemoteDevice.cpp:52-76 | a new device is uninitialised, has written nothing and has zero pin counts |
| RemoteDevices.RemoteDevice.GetPinMode | source/RemoteWiring/RemoteDevice.cpp:207-214 | answers the mode the cache records for the pin, which `PinModeLaw` shows is the mode last set |
| RemoteDevices.RemoteDevice.GetPinModeByName | source/RemoteWiring/RemoteDevice.cpp:217-228 | answers `NamedPinMode` of the cache |
| RemoteDevices.RemoteDevice.PinModeByName | source/RemoteWiring/RemoteDevice.cpp:286-298 | the cache and output follow `NamedPinModeEffect` |
| RemoteDevices.RemoteDevice.PinMode | source/RemoteWiring/RemoteDevice.cpp:232-283 | the cache and output follow `PinModeEffect` |
| RemoteDevices.RemoteDevice.SendMode | source/RemoteWiring/RemoteDevice.cpp:241-268 | the cache and output follow `SendModeEffect` |
| RemoteDevices.RemoteDevice.SettlePinMode | source/RemoteWiring/RemoteDevice.cpp:274-281 | the cache follows `SettleMode` |
| RemoteDevices.RemoteDevice.DigitalWrite | source/RemoteWiring/RemoteDevice.cpp:174-203 | the cache and output follow `DigitalWriteEffect` |
| RemoteDevices.RemoteDevice.DriveBit | source/RemoteWiring/RemoteDevice.cpp:194-201 | the cache and output follow `DriveBitEffect` |
| RemoteDevices.RemoteDevice.DigitalRead | source/RemoteWiring/RemoteDevice.cpp:152-170 | result, cache and output follow `DigitalReadEffect` |
| RemoteDevices.RemoteDevice.AnalogWrite | source/RemoteWiring/RemoteDevice.cpp:129-148 | the cache and output follow `AnalogWriteEffect` |
| RemoteDevices.RemoteDevice.AnalogRead | source/RemoteWiring/RemoteDevice.cpp:91-126 | result, cache and output follow `AnalogReadEffect` |
| RemoteDevices.RemoteDevice.SwitchToAnalog | source/RemoteWiring/RemoteDevice.cpp:107-117 | the pin is readable exactly when it was ANALOG or INPUT; an INPUT pin is switched to ANALOG through `pinMode` |
| RemoteDevices.RemoteDevice.SwitchMode | source/RemoteWiring/RemoteDevice.cpp:162-166 | a pin in mode `from` goes through `pinMode(pin, to)`; any other pin is left alone |
| RemoteDevices.RemoteDevice.OnDigitalReport | source/RemoteWiring/RemoteDevice.cpp:307-339 | the port cache becomes the merged port and the events are the changed-pin events of the merge |
| RemoteDevices.RemoteDevice.OnAnalogReport | source/RemoteWiring/RemoteDevice.cpp:343-357 | the reading is stored as a 16-bit value and one event with that value is raised |
| RemoteDevices.RemoteDevice.Initialize | source/RemoteWiring/RemoteDevice.cpp:383-403 | the first call clears ports, subscriptions and readings and puts every pin in OUTPUT; later calls change nothing |
| RemoteDevices.RemoteDevice.OnPinCapabilityResponseReceived | source/RemoteWiring/RemoteDevice.cpp:525-590 | the three counts are the device-copy scan of the payload, and the cache is initialised |
| LegacyWiring.DrivenPortLaw | RemoteWiring/RemoteWiring.Shared/RemoteWiring.cpp:76-80 | driving a single-bit mask makes that bit follow the value and keeps every other bit; a bit already right leaves the byte unchanged |
| LegacyWiring.LegacyDigitalWriteLaw | RemoteWiring/RemoteWiring.Shared/RemoteWiring.cpp:60-83 | `digitalWrite` does nothing unless the pin is OUTPUT or PWM; otherwise the pin ends in OUTPUT, its bit follows the value, other ports are kept, and the bytes sent are the mode switch (PWM only) then the port frame |
| LegacyWiring.LegacyDigitalWriteTwice | RemoteWiring/RemoteWiring.Shared/RemoteWiring.cpp:60-83 | writing the same value twice leaves the cache as writing it once; the second write only resends the port |
| LegacyWiring.DriveSettled | RemoteWiring/RemoteWiring.Shared/RemoteWiring.cpp:76-82 | driving a bit that already has the value leaves the cache unchanged and only sends the port |
| LegacyWiring.LegacyAnalogWriteLaw | RemoteWiring/RemoteWiring.Shared/RemoteWiring.cpp:36-51 | `analogWrite` does nothing unless the pin is PWM or OUTPUT; otherwise the pin ends in PWM, the mode switch is sent exactly when it was OUTPUT, and the ports are kept |
| LegacyWiring.RemoteWiring.constructor | RemoteWiring/RemoteWiring.Shared/RemoteWiring.cpp:7-27 | the loops clear every port byte and put every pin in OUTPUT |
| LegacyWiring.RemoteWiring.AnalogRead | RemoteWiring/RemoteWiring.Shared/RemoteWiring.cpp:29-34 | always answers 0 |
| LegacyWiring.RemoteWiring.DigitalRead | RemoteWiring/RemoteWiring.Shared/RemoteWiring.cpp:53-58 | always answers 0 |
| LegacyWiring.RemoteWiring.PinMode | RemoteWiring/RemoteWiring.Shared/RemoteWiring.cpp:85-93 | writes SET_PIN_MODE, pin, mode and leaves the cache untouched |
| LegacyWiring.RemoteWiring.AnalogWrite | RemoteWiring/RemoteWiring.Shared/RemoteWiring.cpp:36-51 | the cache and output follow `LegacyAnalogWrite` |
| LegacyWiring.RemoteWiring.DigitalWrite | RemoteWiring/RemoteWiring.Shared/RemoteWiring.cpp:60-83 | the cache and output follow `LegacyDigitalWrite` |
| LegacyWiring.RemoteWiring.LeavePwm | RemoteWiring/RemoteWiring.Shared/RemoteWiring.cpp:67-74 | the pin is ready exactly when it is OUTPUT or PWM; a PWM pin is switched to OUTPUT and that switch is sent |
| LegacyWiring.RemoteWiring.DrivePort | RemoteWiring/RemoteWiring.Shared/RemoteWiring.cpp:76-82 | the cache and output follow `LegacyDrive` |
| TwoWire.ClampDelay | source/RemoteWiring/TwoWire.cpp:8-13 | the delay forwarded by `enable` is the requested one, capped at 0x3FFF |
| TwoWire.Forward | source/RemoteWiring/TwoWire.cpp:8-45 | only a continuous read without a register is dropped; every other call reaches the client with the same arguments, except for the capped delay |
| TwoWire.ForwardedCallsSend | source/RemoteWiring/TwoWire.cpp:16-36 | every forwarded call puts a request on the wire, the client's own guard never firing behind the TwoWire guard; the only forwarded call that goes wrong is a write whose message has a NUL before its end |
| TwoWire.EnableDelayCarried | source/RemoteWiring/TwoWire.cpp:8-13 | `enable` sends a five-byte I2C_CONFIG sysex whose 7-bit pair carries exactly the capped delay |
| TwoWire.UncappedDelayLost | source/RemoteWiring/TwoWire.h:96-97 | without the cap, a delay of 0x4000 would travel as 0 |

## Left out

- RemoteDevices.Wcstol / RemoteDevices.ParsePin: the model reads ASCII
  digits and ASCII white space only. The Windows C runtime's `wcstol` also
  converts the other Unicode decimal-digit blocks (Arabic-Indic, fullwidth
  and so on) and skips every character `iswspace` accepts. The model
  therefore gives 255 for a name such as "A\u0663", which that runtime
  parses as pin 3. Its digit tables are not part of this model.
- Transports (serial, Bluetooth, BLE, network streams), threads, mutexes and
  the input thread are left out. They decide when bytes move, not which bytes
  move. The stream is an `output` sequence, and input bytes are passed to
  `ProcessInput` one at a time.
- Windows Runtime events are left out. Callbacks and `DigitalPinUpdated`,
  `AnalogPinUpdated`, `I2cReplyEvent` and `SysexEvent` events are returned as
  values.
- Firmata.SysexDispatch leaves `storedInputData` unchanged after firing the
  sysex callback. The source hands the callback `storedInputData + 1`, and
  `sysexInvoke` rewrites those bytes in place, terminator included. This
  aliasing is not modelled. It matters only to a later I2C reply with a count
  of 0 or 1, which reads a stale register byte from `argv[1]`.
- Exceptions are left out. `pinMode`'s `catch (...)` only unlocks the lock,
  and nothing in the model throws.
- Connection handling is left out: `begin`, `finish`, `startListening`,
  `onConnectionReady`/`Failed`/`Lost`, and the capability query sent on
  connection. These are transport and event plumbing.
- `printVersion`, `sendString`, `available` and `flush` are left out. They
  are thin writes to the stream or queries of it.
- String events are left out: the wide-string conversion of the string
  event (`mbstowcs_s`), and `onStringMessage` and `onSysexMessage`, which only
  re-raise an event.
- TwoWire `onI2cReply` is left out. It only re-raises the client's event.
- Firmata.FirmataClass.SetFirmwareNameAndVersion takes the name already
  stripped of its directory and ".cpp" extension. `strstr`/`strrchr`
  pointer arithmetic is not modelled.
- Firmata.FirmataClass.SetFirmwareNameAndVersion assumes that the
  invalid-parameter handler returns when `strncpy_s` rejects the name copy,
  which it does for every name (see Findings). The default handler ends the
  process instead, and that is not modelled.
- Firmata.FirmataClass.SetFirmwareNameAndVersion requires the name length
  plus two, cast to a byte, to be at least 2. For names of 254 or 255
  bytes (modulo 256) the count wraps to 0 or 1: the source then writes the
  minor version past a one-byte vector, or hands `strncpy_s` a size of -1.
  Longer names that wrap to a count of 2 or more are modelled.
- Firmata.h is not part of this model. MAX_DATA_BYTES is taken as 64, the
  Firmata 2.4 value. Command and sysex codes are those of the `Command` and
  `SysexCommand` enums in UwpFirmata.h.
- UwpFirmata.Invoke, UwpFirmata.ReassembleInPlace and UwpFirmata.SysexInvoke
  return no event and leave the buffer unchanged where the source reads or
  writes outside the argument buffer. An empty sysex (F0 F7) is the one
  message that leads there (see Findings). What the source does to memory
  beyond the buffer is not modelled.
- UwpFirmata.Narrow returns None, and UwpFirmata.UwpFirmata.WriteI2c writes
  nothing, for a message with a NUL before its last code unit. The source
  then reads past the narrowed copy, and what it sends is not modelled.
  Narrowing a code unit to `char` is taken to keep its low eight bits, as
  the Windows compiler does.
- Firmata.FirmataClass.ProcessInput requires the sysex buffer not to
  overflow. This covers a sysex message longer than 64 bytes and a
  STRING_DATA message too short to hold a character. The source writes past
  the buffer in those cases, which is undefined behaviour.
- The SYSEX_BLOB command code is not defined in any file of the
  repository, so it is a parameter of the `UwpFirmata` constructor.
- The numeric code of the PULLUP pin mode is not defined in any file of
  the repository. It is a parameter of the hardware-profile scan, distinct
  from every named mode.
- HardwareProfiles.HardwareProfile: `_pinCapabilities` is never filled by
  either constructor. The capability queries and pin lists are therefore
  stated over a `ProfileView` value that carries a bitmask table, not over
  the object.
- HardwareProfiles.HardwareProfile.FromCounts takes unbounded integers. The
  `int` overflow of `digital + analog` is not modelled.
- RemoteDevices.RemoteDevice: the methods that take a pin require pin < 128,
  and the port reports require port < 16. The source indexes its fixed
  arrays without a check, so other pins are out-of-bounds accesses.
- RemoteDevices.RemoteDevice.OnAnalogReport requires pin < 6, the number of
  cached analog readings, although an ANALOG_MESSAGE can carry channels up
  to 15. The source writes `_analog_pins[pin]` out of bounds for channels 6
  to 15.
- RemoteDevices.RemoteDevice.AnalogRead requires the parsed name to select
  a cached pin and, when within the analog count, one of the six readings.
  The source reads out of bounds otherwise.
- RemoteDevices.RemoteDevice.Initialize does not model the event
  subscriptions it makes on the Firmata client.
- LegacyWiring.RemoteWiring: the header declares no `_pin_mode` array, so
  its size is taken as 128. The header's constructor signature differs from
  the .cpp's; both constructors are modelled as the one that fills the two
  arrays. Opening the Bluetooth connection is not modelled.
- TwoWire.UncappedDelayLost is proved without any proof steps. It
  illustrates the cap rather than proving a law.

## Findings

| source | as written | input that shows it | evidently intended | confidence | as-written member | corrected member |
|---|---|---|---|---|---|---|
| source/RemoteWiring/HardwareProfile.cpp:162-165 | a mode code outside the switch's cases consumes one byte, so its resolution byte is then read as a mode | the payload 7, 1, 0x7F, 0x7F (pin 0 declares mode 7 at resolution 1; pin 1 declares nothing) scans as one pin instead of two, because byte 1 is read as OUTPUT and its pair swallows pin 0's marker | every (mode, resolution) entry consumes two bytes, so each pin group ends on its own marker | not executed | CapabilityScan.ProfileScanDesync | CapabilityScan.PairScanCountsPins |
| source/Firmata/Firmata/Firmata.cpp:218-220 | the sysex callback is handed `sysexBytesRead - 1` as a byte, which is 255 for an empty sysex; `sysexInvoke` then reassembles 127 pairs in a 63-byte argument buffer | the input F0 F7 with a sysex callback attached and a stale command byte other than REPORT_FIRMWARE and STRING_DATA | an empty sysex carries a count of 0 | not executed | UwpFirmata.EmptySysexOverruns | UwpFirmata.CountedArgcInBounds |
| source/Firmata/Firmata/Firmata.cpp:169 | `strncpy_s` is given the name's room both as the destination size and as the number of characters to copy, which leaves no room for the terminator; it rejects the copy of every name, zeroes the first name byte and calls the invalid-parameter handler | `setFirmwareNameAndVersion` with the name "Firmata": if the handler returns, `printFirmwareVersion` then reports seven zero pairs instead of the name | the name is copied whole, with room for its terminator | not executed | FirmataLaws.StoredFirmwareLosesName | FirmataLaws.NamedFirmwareReported |
| source/RemoteWiring/RemoteDevice.cpp:551-554 | INPUT consumes four bytes, and OUTPUT and every other unlisted mode one byte | the payload 0, 1, 0x7F, 0x7F (pin 0 declares INPUT; pin 1 declares nothing) scans as one pin instead of two | every (mode, resolution) entry consumes two bytes | not executed | CapabilityScan.DeviceScanDesync | CapabilityScan.PairScanCountsPins |

The corrected scan is `Scan(PairDialect, …)`. `PairScanCountsPins` proves
its pin and analog counts for every payload whose mode codes avoid the
marker. The offset laws (`ScanAnalogOffset`, `ScanOffsetUnset`) and
`AnalogBoard` are proved for every dialect on payloads it reads as pairs,
so they hold for the corrected scan on all such payloads. The
`HardwareProfile` and `RemoteDevice` classes keep the as-written copies, so
that they match their source.

`CountedArgc` is the corrected sysex count. `CountedArgcInBounds` proves
that with it `sysexInvoke` stays inside the argument buffer for every
finished sysex. `FirmataClass` keeps the as-written count, and
`SysexInvoke` reports the overrun as no event.

`NamedFirmware` is the intended record of a firmware name, and
`NamedFirmwareReported` proves that it is reported whole. `FirmataClass`
records the as-written `StoredFirmware`. `NameCopyRejected` proves that
`strncpy_s` rejects every name copy.
