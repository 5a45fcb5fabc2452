/** The Firmata 2.4 host library (`FirmataClass`): the encoders that write
    command frames to the stream, and `processInput`, the byte-at-a-time parser
    that reassembles incoming frames and fires the attached callbacks.

    The stream is modelled by its effect: every byte written is appended to the
    `output` log, and each byte read is passed to `ProcessInput` as its argument.
    Callbacks are modelled as the events `ProcessInput` returns, fired only when a
    callback is attached for them. */
module Firmata {
  import opened Protocol

  /** Size of `storedInputData` (Firmata 2.4's MAX_DATA_BYTES). */
  const MAX_DATA_BYTES: nat := 64

  // The names Firmata.cpp uses for codes the `Command` enum also defines.
  const REPORT_ANALOG: Byte := REPORT_ANALOG_PIN
  const REPORT_DIGITAL: Byte := REPORT_DIGITAL_PIN
  const REPORT_VERSION: Byte := PROTOCOL_VERSION

  /** The callback pointers a `FirmataClass` holds. */
  datatype Slot =
    | AnalogCallback | DigitalCallback | ReportAnalogCallback | ReportDigitalCallback
    | PinModeCallback | SystemResetCallback | StringCallback | SysexCallback

  /** The overloads of `attach`, told apart by the callback's signature. */
  datatype CallbackKind = Plain | SystemResetKind | StringKind | SysexKind

  /** One callback invocation. */
  datatype Event =
    | AnalogMessage(channel: Byte, value: int)
    | DigitalMessage(port: Byte, value: int)
    | PinModeSet(pin: Byte, mode: int)
    | ReportAnalog(channel: Byte, enable: int)
    | ReportDigital(port: Byte, enable: int)
    | SystemResetEvent
    | StringMessage(text: seq<Byte>)
    | SysexMessage(command: Byte, argc: Byte, argv: seq<Byte>)

  /** The parser's fields. */
  datatype Parser = Parser(
    waitForData: int,
    executeMultiByteCommand: Byte,
    multiByteChannel: Byte,
    stored: seq<Byte>,
    parsingSysex: bool,
    sysexBytesRead: int)

  predicate ParserValid(p: Parser) {
    |p.stored| == MAX_DATA_BYTES && 0 <= p.waitForData <= 2 && 0 <= p.sysexBytesRead <= MAX_DATA_BYTES
  }

  /** The firmware name and version that `printFirmwareVersion` reports;
      a zero count means none has been set. */
  datatype Firmware = Firmware(count: Byte, vector: seq<Byte>)

  predicate FirmwareValid(fw: Firmware) {
    fw.count == 0 || 2 <= fw.count <= |fw.vector|
  }

  /** The firmware `setFirmwareNameAndVersion` is evidently meant to record:
      the count is the name length plus two cast to a byte, and the
      zero-filled vector of count + 1 bytes holds the version and as much of
      the name as fits. A name of up to 253 bytes is kept whole; a longer one
      wraps the count and is cut. The source's copy never gets that far (see
      NameCopyRejected). */
  function NamedFirmware(name: seq<Byte>, major: Byte, minor: Byte): (fw: Firmware)
    requires (|name| + 2) % 256 >= 2
    ensures FirmwareValid(fw) && fw.count == (|name| + 2) % 256 && |fw.vector| == fw.count + 1
    ensures fw.vector[..2] == [major, minor] && fw.vector[fw.count] == 0
    ensures |name| <= 253 ==> fw.vector == [major, minor] + name + [0]
    ensures |name| > 253 ==> fw.count - 2 < |name| && fw.vector[2..fw.count] == name[..fw.count - 2]
  {
    var count := (|name| + 2) % 256;
    Firmware(count, [major, minor] + name[..count - 2] + [0])
  }

  /** Whether `strncpy_s(dest, destsz, src, count)` rejects its arguments for
      a source string of `srcLen` characters, under the bounds-checking rules
      of Annex K of the C11 standard that the Windows C runtime follows: a
      zero destination size, or a copy of destsz characters or more that
      leaves no room for the terminator. A rejected call stores a zero in
      dest[0] and calls the invalid-parameter handler. */
  predicate StrncpySFails(destsz: nat, count: nat, srcLen: nat) {
    destsz == 0 || (count >= destsz && (if srcLen < count then srcLen else count) >= destsz)
  }

  /** `setFirmwareNameAndVersion` passes the name's room in the vector both as
      the destination size and as the number of characters to copy, so
      `strncpy_s` rejects the copy of every name. */
  lemma NameCopyRejected(name: seq<Byte>)
    requires (|name| + 2) % 256 >= 2
    ensures var room := (|name| + 2) % 256 - 2; room <= |name| && StrncpySFails(room, room, |name|)
  {
    var count := (|name| + 2) % 256;
    assert count <= |name| + 2 by {
      if |name| + 2 >= 256 {
        assert count < 256 <= |name| + 2;
      }
    }
  }

  /** The firmware `setFirmwareNameAndVersion` records as written, when the
      invalid-parameter handler returns: the count as intended, but the
      rejected copy leaves the zero-filled vector holding only the version. */
  function StoredFirmware(name: seq<Byte>, major: Byte, minor: Byte): (fw: Firmware)
    requires (|name| + 2) % 256 >= 2
    ensures FirmwareValid(fw) && fw.count == NamedFirmware(name, major, minor).count
    ensures |fw.vector| == fw.count + 1 && fw.vector[..2] == [major, minor]
    ensures forall k :: 2 <= k < |fw.vector| ==> fw.vector[k] == 0
  {
    var count := (|name| + 2) % 256;
    Firmware(count, [major, minor] + seq(count - 1, _ => 0))
  }

  /** What one parser step leaves behind: the new fields, the callbacks fired
      and the bytes written to the stream. */
  datatype Outcome = Outcome(parser: Parser, events: seq<Event>, written: seq<Byte>)

  /** The state `systemReset` leaves. */
  function ResetParser(): (p: Parser)
    ensures ParserValid(p)
    ensures p.waitForData == 0 && p.executeMultiByteCommand == 0 && p.multiByteChannel == 0
    ensures !p.parsingSysex && p.sysexBytesRead == 0
    ensures forall k :: 0 <= k < |p.stored| ==> p.stored[k] == 0
  {
    Parser(0, 0, 0, seq(MAX_DATA_BYTES, _ => 0), false, 0)
  }

  // ---------------------------------------------------------------------------
  // Encoders

  /** The bytes of `sendValueAsTwo7bitBytes` applied to each element in turn. */
  function Encode7(data: seq<int>): (r: seq<Byte>)
    ensures |r| == 2 * |data|
    ensures forall k :: 0 <= k < |data| ==> r[2 * k] == data[k] % 128 && r[2 * k + 1] == (data[k] / 128) % 128
    ensures forall k :: 0 <= k < |r| ==> r[k] < 128
  {
    if |data| == 0 then [] else TwoSevenBit(data[0]) + Encode7(data[1..])
  }

  /** `sendAnalog`: the channel is cut to four bits, the value sent as two 7-bit bytes. */
  function AnalogFrame(pin: Byte, value: int): (r: seq<Byte>)
    ensures |r| == 3 && r[0] / 16 * 16 == ANALOG_MESSAGE && r[0] % 16 == pin % 16
    ensures r[1..] == TwoSevenBit(value)
  {
    [CommandByte(ANALOG_MESSAGE, pin)] + TwoSevenBit(value)
  }

  /** `sendDigitalPort`: the port is cut to four bits, the port value sent as two 7-bit bytes. */
  function DigitalFrame(port: Byte, value: int): (r: seq<Byte>)
    ensures |r| == 3 && r[0] / 16 * 16 == DIGITAL_MESSAGE && r[0] % 16 == port % 16
    ensures r[1..] == TwoSevenBit(value)
  {
    [CommandByte(DIGITAL_MESSAGE, port)] + TwoSevenBit(value)
  }

  /** `sendSysex`: START_SYSEX, the command, every byte as two 7-bit bytes, END_SYSEX. */
  function SysexFrame(command: Byte, data: seq<int>): (r: seq<Byte>)
    ensures |r| == 3 + 2 * |data|
    ensures r[0] == START_SYSEX && r[1] == command && r[|r| - 1] == END_SYSEX
    ensures r[2..|r| - 1] == Encode7(data)
  {
    [START_SYSEX, command] + Encode7(data) + [END_SYSEX]
  }

  /** `printFirmwareVersion`: nothing until a name is set; then a REPORT_FIRMWARE
      sysex carrying the two version bytes raw and the name as 7-bit pairs. */
  function FirmwareReport(fw: Firmware): (r: seq<Byte>)
    requires FirmwareValid(fw)
    ensures fw.count == 0 <==> r == []
    ensures fw.count != 0 ==> |r| == 2 * fw.count + 1 && r[0] == START_SYSEX && r[1] == REPORT_FIRMWARE && r[|r| - 1] == END_SYSEX
  {
    if fw.count == 0 then []
    else [START_SYSEX, REPORT_FIRMWARE, fw.vector[0], fw.vector[1]] + Encode7(fw.vector[2..fw.count]) + [END_SYSEX]
  }

  // ---------------------------------------------------------------------------
  // Callback routing

  /** Which pointer `attach(command, f)` sets, if any: the plain overload
      recognises five commands, the reset and string overloads one each, and the
      sysex overload ignores the command. */
  function AttachSlot(command: Byte, kind: CallbackKind): (r: Option<Slot>)
    ensures kind == SysexKind ==> r == Some(SysexCallback)
    ensures kind == Plain && r.Some? ==> r.value in {AnalogCallback, DigitalCallback, ReportAnalogCallback, ReportDigitalCallback, PinModeCallback}
    ensures kind == Plain ==> (r.Some? <==> command in {ANALOG_MESSAGE, DIGITAL_MESSAGE, REPORT_ANALOG, REPORT_DIGITAL, SET_PIN_MODE})
    ensures kind == SystemResetKind ==> (r.Some? <==> command == SYSTEM_RESET) && (r.Some? ==> r.value == SystemResetCallback)
    ensures kind == StringKind ==> (r.Some? <==> command == STRING_DATA) && (r.Some? ==> r.value == StringCallback)
  {
    match kind
    case Plain =>
      if command == ANALOG_MESSAGE then Some(AnalogCallback)
      else if command == DIGITAL_MESSAGE then Some(DigitalCallback)
      else if command == REPORT_ANALOG then Some(ReportAnalogCallback)
      else if command == REPORT_DIGITAL then Some(ReportDigitalCallback)
      else if command == SET_PIN_MODE then Some(PinModeCallback)
      else None
    case SystemResetKind => if command == SYSTEM_RESET then Some(SystemResetCallback) else None
    case StringKind => if command == STRING_DATA then Some(StringCallback) else None
    case SysexKind => Some(SysexCallback)
  }

  /** Which pointer `detach(command)` clears: reset, string and START_SYSEX are
      special-cased, every other command goes through the plain overload. */
  function DetachSlot(command: Byte): (r: Option<Slot>)
    ensures r == Some(SysexCallback) <==> command == START_SYSEX
    ensures command !in {SYSTEM_RESET, STRING_DATA, START_SYSEX} ==> r == AttachSlot(command, Plain)
  {
    if command == SYSTEM_RESET then Some(SystemResetCallback)
    else if command == STRING_DATA then Some(StringCallback)
    else if command == START_SYSEX then Some(SysexCallback)
    else AttachSlot(command, Plain)
  }

  // ---------------------------------------------------------------------------
  // The parser as a function of its fields

  /** The value of a completed two-byte message: `(stored[0] << 7) + stored[1]`. */
  function StoredValue(p: Parser): int
    requires |p.stored| >= 2
  {
    p.stored[0] as int * 128 + p.stored[1]
  }

  /** The callback a completed multi-byte message fires, if attached. */
  function Dispatch(p: Parser, attached: set<Slot>): (r: seq<Event>)
    requires |p.stored| >= 2
    ensures |r| <= 1
  {
    var cmd := p.executeMultiByteCommand;
    if cmd == ANALOG_MESSAGE then
      (if AnalogCallback in attached then [AnalogMessage(p.multiByteChannel, StoredValue(p))] else [])
    else if cmd == DIGITAL_MESSAGE then
      (if DigitalCallback in attached then [DigitalMessage(p.multiByteChannel, StoredValue(p))] else [])
    else if cmd == SET_PIN_MODE then
      (if PinModeCallback in attached then [PinModeSet(p.stored[1], p.stored[0])] else [])
    else if cmd == REPORT_ANALOG then
      (if ReportAnalogCallback in attached then [ReportAnalog(p.multiByteChannel, p.stored[0])] else [])
    else if cmd == REPORT_DIGITAL then
      (if ReportDigitalCallback in attached then [ReportDigital(p.multiByteChannel, p.stored[0])] else [])
    else []
  }

  /** Byte k of a STRING_DATA payload: `stored[2k+1] + (stored[2k+2] << 7)`, kept to eight bits. */
  function DecodedPair(stored: seq<Byte>, k: nat): Byte
    requires 2 * k + 2 < |stored|
  {
    (stored[2 * k + 1] as int + stored[2 * k + 2] as int * 128) % 256
  }

  /** The buffer after the in-place STRING_DATA decode of n characters and its
      null termination. */
  function StringDecode(stored: seq<Byte>, n: nat): (r: seq<Byte>)
    requires 1 <= n && 2 * n + 1 <= |stored|
    ensures |r| == |stored|
    ensures forall k :: 0 <= k < n ==> r[k] == DecodedPair(stored, k)
    ensures r[n - 1] == 0 || r[n] == 0
    ensures forall k :: n < k < |stored| ==> r[k] == stored[k]
  {
    var s := seq(n, k requires 0 <= k < n => DecodedPair(stored, k)) + stored[n..];
    if s[n - 1] != 0 then s[n := 0] else s
  }

  /** The bytes of a C string: everything before the first zero. */
  function CString(s: seq<Byte>): (r: seq<Byte>)
    ensures |r| <= |s| && r == s[..|r|] && 0 !in r
    ensures |r| < |s| ==> s[|r|] == 0
  {
    if |s| == 0 || s[0] == 0 then [] else [s[0]] + CString(s[1..])
  }

  /** A finished sysex may be dispatched without reading outside the buffer: a
      STRING_DATA message for an attached string callback needs at least one
      character (the source indexes `storedInputData[j - 1]` with j = 0 otherwise). */
  predicate SysexSafe(p: Parser, attached: set<Slot>) {
    |p.stored| > 0 && p.stored[0] == STRING_DATA && StringCallback in attached ==> p.sysexBytesRead >= 3
  }

  /** `processSysexMessage`, dispatching on the first stored byte: the new
      buffer, the callbacks fired and the bytes written. */
  function SysexDispatch(p: Parser, attached: set<Slot>, fw: Firmware): (r: (seq<Byte>, seq<Event>, seq<Byte>))
    requires ParserValid(p) && FirmwareValid(fw) && SysexSafe(p, attached)
    ensures |r.0| == MAX_DATA_BYTES && |r.1| <= 1
  {
    var cmd := p.stored[0];
    if cmd == REPORT_FIRMWARE then
      (p.stored, [], FirmwareReport(fw))
    else if cmd == STRING_DATA then
      if StringCallback in attached then
        var s := StringDecode(p.stored, (p.sysexBytesRead - 1) / 2);
        (s, [StringMessage(CString(s))], [])
      else (p.stored, [], [])
    else if SysexCallback in attached then
      (p.stored, [SysexMessage(cmd, (p.sysexBytesRead - 1) % 256, p.stored[1..])], [])
    else (p.stored, [], [])
  }

  /** An input the source handles without writing outside `storedInputData`:
      a sysex byte needs room in the buffer (the source does not check), and a
      finished sysex must be safe to dispatch. */
  predicate Safe(p: Parser, input: int, attached: set<Slot>) {
    input == 0xFFFF || !p.parsingSysex ||
    (input != END_SYSEX && p.sysexBytesRead < MAX_DATA_BYTES) ||
    (input == END_SYSEX && SysexSafe(p, attached))
  }

  /** `processInput` for one value read from the stream (0xFFFF meaning "no data"). */
  function Step(p: Parser, input: int, attached: set<Slot>, fw: Firmware): (r: Outcome)
    requires ParserValid(p) && FirmwareValid(fw) && 0 <= input <= 0xFFFF && Safe(p, input, attached)
    ensures ParserValid(r.parser) && |r.events| <= 1
  {
    if input == 0xFFFF then Outcome(p, [], [])
    else if p.parsingSysex then
      if input == END_SYSEX then
        var q := p.(parsingSysex := false);
        var d := SysexDispatch(q, attached, fw);
        Outcome(q.(stored := d.0), d.1, d.2)
      else
        Outcome(p.(stored := p.stored[p.sysexBytesRead := LowByte(input)], sysexBytesRead := p.sysexBytesRead + 1), [], [])
    else if p.waitForData > 0 && input < 128 then
      var w := p.waitForData - 1;
      var q := p.(waitForData := w, stored := p.stored[w := input]);
      if w == 0 && q.executeMultiByteCommand != 0 then
        Outcome(q.(executeMultiByteCommand := 0), Dispatch(q, attached), [])
      else
        Outcome(q, [], [])
    else CommandStep(p, input, attached)
  }

  /** The branch of `processInput` for a value that is neither sysex content nor
      an awaited data byte: a command byte (channel in the low nibble below 0xF0). */
  function CommandStep(p: Parser, input: int, attached: set<Slot>): (r: Outcome)
    requires ParserValid(p)
    ensures ParserValid(r.parser) && |r.events| <= 1
  {
    var command := if input < 0xF0 then input / 16 * 16 else input;
    var q := if input < 0xF0 then p.(multiByteChannel := input % 16) else p;
    if command == ANALOG_MESSAGE || command == DIGITAL_MESSAGE || command == SET_PIN_MODE then
      Outcome(q.(waitForData := 2, executeMultiByteCommand := command), [], [])
    else if command == REPORT_ANALOG || command == REPORT_DIGITAL then
      Outcome(q.(waitForData := 1, executeMultiByteCommand := command), [], [])
    else if command == START_SYSEX then
      Outcome(q.(parsingSysex := true, sysexBytesRead := 0), [], [])
    else if command == SYSTEM_RESET then
      Outcome(ResetParser(), if SystemResetCallback in attached then [SystemResetEvent] else [], [])
    else
      Outcome(q, [], [])
  }

  /** Every value of a run can be fed safely, one after the other. */
  predicate FeedSafe(p: Parser, inputs: seq<int>, attached: set<Slot>, fw: Firmware)
    requires ParserValid(p) && FirmwareValid(fw)
    decreases |inputs|
  {
    |inputs| == 0 ||
    (0 <= inputs[0] <= 0xFFFF && Safe(p, inputs[0], attached) &&
     FeedSafe(Step(p, inputs[0], attached, fw).parser, inputs[1..], attached, fw))
  }

  /** `processInput` called once for each value of a run. */
  function Feed(p: Parser, inputs: seq<int>, attached: set<Slot>, fw: Firmware): (r: Outcome)
    requires ParserValid(p) && FirmwareValid(fw) && FeedSafe(p, inputs, attached, fw)
    ensures ParserValid(r.parser)
    decreases |inputs|
  {
    if |inputs| == 0 then Outcome(p, [], [])
    else
      var o := Step(p, inputs[0], attached, fw);
      var rest := Feed(o.parser, inputs[1..], attached, fw);
      Outcome(rest.parser, o.events + rest.events, o.written + rest.written)
  }

  // ---------------------------------------------------------------------------
  // The library object

  class FirmataClass {
    var waitForData: int
    var executeMultiByteCommand: Byte
    var multiByteChannel: Byte
    const storedInputData: array<Byte>
    var parsingSysex: bool
    var sysexBytesRead: int
    /** The callbacks currently attached. */
    var attached: set<Slot>
    var firmwareVersionCount: Byte
    var firmwareVersionVector: seq<Byte>
    /** Every byte written to the stream so far. */
    var output: seq<Byte>

    ghost predicate Valid()
      reads this, storedInputData
    {
      storedInputData.Length == MAX_DATA_BYTES && ParserValid(State()) && FirmwareValid(Fw())
    }

    ghost function State(): Parser
      reads this, storedInputData
    {
      Parser(waitForData, executeMultiByteCommand, multiByteChannel, storedInputData[..], parsingSysex, sysexBytesRead)
    }

    ghost function Fw(): Firmware
      reads this
    {
      Firmware(firmwareVersionCount, firmwareVersionVector)
    }

    /** No firmware name, no callbacks, nothing written, and the parser reset. */
    constructor ()
      ensures Valid() && fresh(storedInputData)
      ensures State() == ResetParser() && attached == {} && output == [] && Fw().count == 0
    {
      storedInputData := new Byte[MAX_DATA_BYTES];
      firmwareVersionCount := 0;
      firmwareVersionVector := [];
      attached := {};
      output := [];
      new;
      var _ := SystemReset();
    }

    /** `systemReset`: every parser field back to zero, then the reset callback. */
    method SystemReset() returns (events: seq<Event>)
      requires storedInputData.Length == MAX_DATA_BYTES
      modifies this, storedInputData
      ensures State() == ResetParser()
      ensures events == if SystemResetCallback in attached then [SystemResetEvent] else []
      ensures attached == old(attached) && output == old(output) && Fw() == old(Fw())
    {
      waitForData := 0;
      executeMultiByteCommand := 0;
      multiByteChannel := 0;
      for i := 0 to MAX_DATA_BYTES
        invariant forall k :: 0 <= k < i ==> storedInputData[k] == 0
        modifies storedInputData
      {
        storedInputData[i] := 0;
      }
      parsingSysex := false;
      sysexBytesRead := 0;
      events := if SystemResetCallback in attached then [SystemResetEvent] else [];
    }

    method Write(c: Byte)
      modifies this`output
      ensures output == old(output) + [c]
    {
      output := output + [c];
    }

    method StartSysex()
      modifies this`output
      ensures output == old(output) + [START_SYSEX]
    {
      Write(START_SYSEX);
    }

    method EndSysex()
      modifies this`output
      ensures output == old(output) + [END_SYSEX]
    {
      Write(END_SYSEX);
    }

    method SendValueAsTwo7bitBytes(value: int)
      modifies this`output
      ensures output == old(output) + TwoSevenBit(value)
    {
      Write(value % 128);
      Write((value / 128) % 128);
    }

    method SendAnalog(pin: Byte, value: int)
      modifies this`output
      ensures output == old(output) + AnalogFrame(pin, value)
    {
      Write(CommandByte(ANALOG_MESSAGE, pin));
      SendValueAsTwo7bitBytes(value);
    }

    method SendDigitalPort(portNumber: Byte, portData: int)
      modifies this`output
      ensures output == old(output) + DigitalFrame(portNumber, portData)
    {
      Write(CommandByte(DIGITAL_MESSAGE, portNumber));
      SendValueAsTwo7bitBytes(portData);
    }

    method SendSysex(command: Byte, bytec: Byte, bytev: array<Byte>)
      requires bytec <= bytev.Length
      modifies this`output
      ensures output == old(output) + SysexFrame(command, bytev[..bytec])
    {
      ghost var data: seq<int> := bytev[..bytec];
      StartSysex();
      Write(command);
      ghost var head := output;
      for i := 0 to bytec
        invariant output == head + Encode7(data[..i])
      {
        SendValueAsTwo7bitBytes(bytev[i]);
        EncodeStep(head, data, i);
      }
      EndSysex();
      assert data[..bytec] == data;
    }

    /** `setFirmwareNameAndVersion`, for a name already stripped of its
        directory and extension: records StoredFirmware, the version in a
        zero-filled vector whose name copy `strncpy_s` rejected. */
    method SetFirmwareNameAndVersion(name: seq<Byte>, major: Byte, minor: Byte)
      requires (|name| + 2) % 256 >= 2
      modifies this`firmwareVersionCount, this`firmwareVersionVector
      ensures Fw() == StoredFirmware(name, major, minor)
    {
      var count := (|name| + 2) % 256;
      firmwareVersionCount := count;
      firmwareVersionVector := [major, minor] + seq(count - 1, _ => 0);
    }

    /** `sendValueAsTwo7bitBytes` on `v[lo]`, ..., `v[hi - 1]` in turn. */
    method SendValues(v: seq<Byte>, lo: nat, hi: nat)
      requires lo <= hi <= |v|
      modifies this`output
      ensures output == old(output) + Encode7(v[lo..hi])
    {
      ghost var data: seq<int> := v[lo..hi];
      for j := 0 to hi - lo
        invariant output == old(output) + Encode7(data[..j])
      {
        SendValueAsTwo7bitBytes(v[lo + j]);
        EncodeStep(old(output), data, j);
      }
      assert data[..hi - lo] == data;
    }

    method PrintFirmwareVersion()
      requires FirmwareValid(Fw())
      modifies this`output
      ensures output == old(output) + FirmwareReport(Fw())
    {
      if firmwareVersionCount != 0 {
        var v := firmwareVersionVector;
        StartSysex();
        Write(REPORT_FIRMWARE);
        Write(v[0]);
        Write(v[1]);
        ghost var header: seq<Byte> := [START_SYSEX, REPORT_FIRMWARE, v[0], v[1]];
        Singletons(old(output), START_SYSEX, REPORT_FIRMWARE, v[0], v[1]);
        assert output == old(output) + header;
        ghost var name := Encode7(v[2..firmwareVersionCount]);
        SendValues(v, 2, firmwareVersionCount);
        EndSysex();
        assert output == old(output) + header + name + [END_SYSEX];
        AppendAssoc(old(output), header, name);
        AppendAssoc(old(output), header + name, [END_SYSEX]);
        assert FirmwareReport(Fw()) == header + name + [END_SYSEX];
      }
    }

    /** `attach`: the overload of `kind` sets the pointer `AttachSlot` names. */
    method Attach(command: Byte, kind: CallbackKind)
      modifies this`attached
      ensures attached == match AttachSlot(command, kind)
                          case Some(s) => old(attached) + {s}
                          case None => old(attached)
    {
      var slot := AttachSlot(command, kind);
      if slot.Some? {
        attached := attached + {slot.value};
      }
    }

    /** `detach`: clears the pointer `DetachSlot` names. */
    method Detach(command: Byte)
      modifies this`attached
      ensures attached == match DetachSlot(command)
                          case Some(s) => old(attached) - {s}
                          case None => old(attached)
    {
      var slot := DetachSlot(command);
      if slot.Some? {
        attached := attached - {slot.value};
      }
    }

    /** The STRING_DATA decode loop: character j is rebuilt from stored bytes
        2j+1 and 2j+2 into stored byte j, then the string is null-terminated. */
    method DecodeStringInPlace(n: Byte)
      requires storedInputData.Length == MAX_DATA_BYTES && 1 <= n && 2 * n + 1 <= MAX_DATA_BYTES
      modifies storedInputData
      ensures storedInputData[..] == StringDecode(old(storedInputData[..]), n)
    {
      ghost var s0 := storedInputData[..];
      var i: int, j: int := 1, 0;
      while j < n
        invariant 0 <= j <= n && i == 2 * j + 1
        invariant forall k :: 0 <= k < j ==> storedInputData[k] == DecodedPair(s0, k)
        invariant forall k :: j <= k < MAX_DATA_BYTES ==> storedInputData[k] == s0[k]
      {
        storedInputData[j] := storedInputData[i];
        i := i + 1;
        storedInputData[j] := (storedInputData[j] as int + storedInputData[i] as int * 128) % 256;
        i := i + 1;
        j := j + 1;
      }
      if storedInputData[j - 1] != 0 {
        storedInputData[j] := 0;
      }
      assert storedInputData[..] == StringDecode(s0, n);
    }

    /** `processSysexMessage`. */
    method ProcessSysexMessage() returns (events: seq<Event>)
      requires Valid() && SysexSafe(State(), attached)
      modifies storedInputData, this`output
      ensures Valid()
      ensures var d := SysexDispatch(old(State()), attached, Fw());
              storedInputData[..] == d.0 && events == d.1 && output == old(output) + d.2
    {
      var cmd := storedInputData[0];
      if cmd == REPORT_FIRMWARE {
        PrintFirmwareVersion();
        events := [];
      } else if cmd == STRING_DATA {
        if StringCallback in attached {
          DecodeStringInPlace((sysexBytesRead - 1) / 2);
          events := [StringMessage(CString(storedInputData[..]))];
        } else {
          events := [];
        }
      } else if SysexCallback in attached {
        events := [SysexMessage(cmd, (sysexBytesRead - 1) % 256, storedInputData[1..])];
      } else {
        events := [];
      }
    }

    /** `processInput` for the value `input` read from the stream. */
    method ProcessInput(input: int) returns (events: seq<Event>)
      requires Valid() && 0 <= input <= 0xFFFF && Safe(State(), input, attached)
      modifies this, storedInputData
      ensures Valid() && attached == old(attached) && Fw() == old(Fw())
      ensures var o := Step(old(State()), input, old(attached), old(Fw()));
              State() == o.parser && events == o.events && output == old(output) + o.written
    {
      events := [];
      if input == 0xFFFF {
        return;
      }
      if parsingSysex {
        if input == END_SYSEX {
          parsingSysex := false;
          events := ProcessSysexMessage();
        } else {
          storedInputData[sysexBytesRead] := LowByte(input);
          sysexBytesRead := sysexBytesRead + 1;
        }
      } else if waitForData > 0 && input < 128 {
        waitForData := waitForData - 1;
        storedInputData[waitForData] := input;
        if waitForData == 0 && executeMultiByteCommand != 0 {
          events := Dispatch(Parser(waitForData, executeMultiByteCommand, multiByteChannel, storedInputData[..], parsingSysex, sysexBytesRead), attached);
          executeMultiByteCommand := 0;
        }
      } else {
        events := ProcessCommand(input);
      }
    }

    /** The command-byte branch of `processInput`. */
    method ProcessCommand(input: int) returns (events: seq<Event>)
      requires Valid() && 0 <= input <= 0xFFFF
      modifies this, storedInputData
      ensures Valid() && attached == old(attached) && Fw() == old(Fw())
      ensures var o := CommandStep(old(State()), input, old(attached));
              State() == o.parser && events == o.events && output == old(output)
    {
      events := [];
      var command: int;
      if input < 0xF0 {
        command := input / 16 * 16;
        multiByteChannel := input % 16;
      } else {
        command := input;
      }
      if command == ANALOG_MESSAGE || command == DIGITAL_MESSAGE || command == SET_PIN_MODE {
        waitForData := 2;
        executeMultiByteCommand := command;
      } else if command == REPORT_ANALOG || command == REPORT_DIGITAL {
        waitForData := 1;
        executeMultiByteCommand := command;
      } else if command == START_SYSEX {
        parsingSysex := true;
        sysexBytesRead := 0;
      } else if command == SYSTEM_RESET {
        events := SystemReset();
      }
    }
  }

  /** Four single bytes written one after another. */
  lemma Singletons(pre: seq<Byte>, a: Byte, b: Byte, c: Byte, d: Byte)
    ensures pre + [a] + [b] + [c] + [d] == pre + [a, b, c, d]
  {
  }

  /** One more element of a prefix, encoded after the bytes already sent. */
  lemma EncodeStep(head: seq<Byte>, v: seq<int>, i: int)
    requires 0 <= i < |v|
    ensures head + Encode7(v[..i + 1]) == head + Encode7(v[..i]) + TwoSevenBit(v[i])
  {
    assert v[..i + 1] == v[..i] + [v[i]];
    Encode7Append(v[..i], v[i]);
  }

  /** Encoding one more element appends its two 7-bit bytes. */
  lemma {:induction false} Encode7Append(data: seq<int>, x: int)
    ensures Encode7(data + [x]) == Encode7(data) + TwoSevenBit(x)
  {
    if |data| == 0 {
      assert data + [x] == [x];
    } else {
      assert (data + [x])[1..] == data[1..] + [x];
      Encode7Append(data[1..], x);
    }
  }
}
