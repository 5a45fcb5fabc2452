/** What `processInput` promises about whole frames: every frame the encoders
    of `FirmataClass` write is decoded by the parser back into the callback it
    stands for, whatever channel message was pending before it, provided no
    sysex message is open (inside one the bytes are stored as payload). Analog
    and digital values stay below 16384; a sysex frame carries at most 31 data
    bytes and a command below 128 that the parser does not handle itself. */
module FirmataLaws {
  import opened Protocol
  import opened Firmata

  /** A run that can be fed, followed by one that can be fed from where it
      stops, can be fed as a whole. */
  lemma {:induction false} FeedSafeAppend(p: Parser, a: seq<int>, b: seq<int>, attached: set<Slot>, fw: Firmware)
    requires ParserValid(p) && FirmwareValid(fw) && FeedSafe(p, a, attached, fw)
    requires FeedSafe(Feed(p, a, attached, fw).parser, b, attached, fw)
    ensures FeedSafe(p, a + b, attached, fw)
    decreases |a|
  {
    if |a| == 0 {
      assert a + b == b;
    } else {
      assert (a + b)[0] == a[0] && (a + b)[1..] == a[1..] + b;
      var q := Step(p, a[0], attached, fw).parser;
      FeedSafeAppend(q, a[1..], b, attached, fw);
    }
  }

  /** Feeding two runs one after the other is feeding their concatenation. */
  lemma {:induction false} FeedAppend(p: Parser, a: seq<int>, b: seq<int>, attached: set<Slot>, fw: Firmware)
    requires ParserValid(p) && FirmwareValid(fw) && FeedSafe(p, a, attached, fw)
    requires FeedSafe(Feed(p, a, attached, fw).parser, b, attached, fw)
    ensures FeedSafe(p, a + b, attached, fw)
    ensures var oa := Feed(p, a, attached, fw);
            var ob := Feed(oa.parser, b, attached, fw);
            Feed(p, a + b, attached, fw) == Outcome(ob.parser, oa.events + ob.events, oa.written + ob.written)
    decreases |a|
  {
    FeedSafeAppend(p, a, b, attached, fw);
    if |a| == 0 {
      assert a + b == b;
    } else {
      assert (a + b)[0] == a[0] && (a + b)[1..] == a[1..] + b;
      var o := Step(p, a[0], attached, fw);
      var ra := Feed(o.parser, a[1..], attached, fw);
      var rb := Feed(ra.parser, b, attached, fw);
      FeedAppend(o.parser, a[1..], b, attached, fw);
      AppendAssoc(o.events, ra.events, rb.events);
      AppendAssoc(o.written, ra.written, rb.written);
    }
  }

  /** Feeding a single value is one step. */
  lemma FeedOne(p: Parser, x: int, attached: set<Slot>, fw: Firmware)
    requires ParserValid(p) && FirmwareValid(fw) && 0 <= x <= 0xFFFF && Safe(p, x, attached)
    ensures FeedSafe(p, [x], attached, fw) && Feed(p, [x], attached, fw) == Step(p, x, attached, fw)
  {
    var o := Step(p, x, attached, fw);
    assert [x][1..] == [];
    assert Feed(o.parser, [], attached, fw) == Outcome(o.parser, [], []);
  }

  /** A command byte of a two-byte-payload message (analog, digital, set pin
      mode), followed by its two data bytes, fires its callback once with the
      data bytes in the order the source unpacks them, from any state outside a
      sysex message; the parser is left idle. */
  lemma ThreeByteMessage(p: Parser, first: Byte, lo: Byte, hi: Byte, attached: set<Slot>, fw: Firmware)
    requires ParserValid(p) && FirmwareValid(fw) && !p.parsingSysex
    requires first / 16 * 16 in {ANALOG_MESSAGE, DIGITAL_MESSAGE} || first == SET_PIN_MODE
    requires lo < 128 && hi < 128
    ensures FeedSafe(p, [first, lo, hi], attached, fw)
    ensures var o := Feed(p, [first, lo, hi], attached, fw);
            var q := o.parser;
            q.waitForData == 0 && q.executeMultiByteCommand == 0 && !q.parsingSysex && o.written == [] &&
            q.multiByteChannel == (if first < 0xF0 then first % 16 else p.multiByteChannel) &&
            q.stored[0] == hi && q.stored[1] == lo &&
            o.events == Dispatch(q.(executeMultiByteCommand := if first < 0xF0 then first / 16 * 16 else first), attached)
  {
    var o1 := Step(p, first, attached, fw);
    var o2 := Step(o1.parser, lo, attached, fw);
    var o3 := Step(o2.parser, hi, attached, fw);
    assert o1.parser.waitForData == 2 && o1.events == [] && o1.written == [];
    assert o2.parser.waitForData == 1 && o2.events == [] && o2.written == [];
    FeedOne(o2.parser, hi, attached, fw);
    FeedAppend(o1.parser, [lo], [hi], attached, fw);
    assert [lo] + [hi] == [lo, hi];
    FeedAppend(p, [first], [lo, hi], attached, fw);
    assert [first] + [lo, hi] == [first, lo, hi];
  }

  /** `sendAnalog` round trip: the frame fires the analog callback with the
      channel and the 14-bit value that were sent. */
  lemma AnalogRoundTrip(p: Parser, pin: Byte, value: int, attached: set<Slot>, fw: Firmware)
    requires ParserValid(p) && FirmwareValid(fw) && !p.parsingSysex
    requires pin < 16 && 0 <= value < 16384
    ensures FeedSafe(p, AnalogFrame(pin, value), attached, fw)
    ensures var o := Feed(p, AnalogFrame(pin, value), attached, fw);
            o.events == (if AnalogCallback in attached then [AnalogMessage(pin, value)] else []) &&
            o.written == [] && o.parser.waitForData == 0 && !o.parser.parsingSysex
  {
    var f := AnalogFrame(pin, value);
    assert f == [f[0], f[1], f[2]];
    ThreeByteMessage(p, f[0], f[1], f[2], attached, fw);
  }

  /** `sendDigitalPort` round trip: the frame fires the digital callback with the
      port and the 14-bit port value that were sent. */
  lemma DigitalRoundTrip(p: Parser, port: Byte, value: int, attached: set<Slot>, fw: Firmware)
    requires ParserValid(p) && FirmwareValid(fw) && !p.parsingSysex
    requires port < 16 && 0 <= value < 16384
    ensures FeedSafe(p, DigitalFrame(port, value), attached, fw)
    ensures var o := Feed(p, DigitalFrame(port, value), attached, fw);
            o.events == (if DigitalCallback in attached then [DigitalMessage(port, value)] else []) &&
            o.written == [] && o.parser.waitForData == 0 && !o.parser.parsingSysex
  {
    var f := DigitalFrame(port, value);
    assert f == [f[0], f[1], f[2]];
    ThreeByteMessage(p, f[0], f[1], f[2], attached, fw);
  }

  /** A SET_PIN_MODE message fires the pin-mode callback with the pin first and
      the mode second, although the parser stores them in reverse. */
  lemma PinModeRoundTrip(p: Parser, pin: Byte, mode: Byte, attached: set<Slot>, fw: Firmware)
    requires ParserValid(p) && FirmwareValid(fw) && !p.parsingSysex
    requires pin < 128 && mode < 128
    ensures FeedSafe(p, [SET_PIN_MODE, pin, mode], attached, fw)
    ensures var o := Feed(p, [SET_PIN_MODE, pin, mode], attached, fw);
            o.events == (if PinModeCallback in attached then [PinModeSet(pin, mode)] else []) &&
            o.written == [] && o.parser.waitForData == 0 && !o.parser.parsingSysex
  {
    ThreeByteMessage(p, SET_PIN_MODE, pin, mode, attached, fw);
  }

  /** A REPORT_ANALOG or REPORT_DIGITAL message fires its callback with the
      channel of the command byte and the single data byte. */
  lemma ReportRoundTrip(p: Parser, cmd: Byte, port: Byte, enable: Byte, attached: set<Slot>, fw: Firmware)
    requires ParserValid(p) && FirmwareValid(fw) && !p.parsingSysex
    requires cmd == REPORT_ANALOG || cmd == REPORT_DIGITAL
    requires port < 16 && enable < 128
    ensures FeedSafe(p, [CommandByte(cmd, port), enable], attached, fw)
    ensures var o := Feed(p, [CommandByte(cmd, port), enable], attached, fw);
            o.events == (if cmd == REPORT_ANALOG then
                           (if ReportAnalogCallback in attached then [ReportAnalog(port, enable)] else [])
                         else
                           (if ReportDigitalCallback in attached then [ReportDigital(port, enable)] else [])) &&
            o.written == [] && o.parser.waitForData == 0 && !o.parser.parsingSysex
  {
    var first := CommandByte(cmd, port);
    var o1 := Step(p, first, attached, fw);
    assert o1.parser.waitForData == 1 && o1.parser.executeMultiByteCommand == cmd && o1.parser.multiByteChannel == port;
    FeedOne(o1.parser, enable, attached, fw);
    FeedAppend(p, [first], [enable], attached, fw);
    assert [first] + [enable] == [first, enable];
  }

  /** Inside a sysex message, every byte other than END_SYSEX is appended to the
      buffer and nothing fires. */
  lemma {:induction false} SysexAccumulate(p: Parser, bytes: seq<Byte>, attached: set<Slot>, fw: Firmware)
    requires ParserValid(p) && FirmwareValid(fw) && p.parsingSysex
    requires p.sysexBytesRead + |bytes| <= MAX_DATA_BYTES
    requires END_SYSEX !in bytes
    ensures FeedSafe(p, bytes, attached, fw)
    ensures var o := Feed(p, bytes, attached, fw);
            o.events == [] && o.written == [] &&
            o.parser == p.(stored := p.stored[..p.sysexBytesRead] + bytes + p.stored[p.sysexBytesRead + |bytes|..],
                           sysexBytesRead := p.sysexBytesRead + |bytes|)
    decreases |bytes|
  {
    var n := p.sysexBytesRead;
    if |bytes| == 0 {
      assert p.stored[..n] + bytes + p.stored[n..] == p.stored;
    } else {
      var q := p.(stored := p.stored[n := bytes[0]], sysexBytesRead := n + 1);
      SysexByte(p, bytes[0], attached, fw);
      assert END_SYSEX !in bytes[1..] by {
        forall k | 0 <= k < |bytes[1..]| ensures bytes[1..][k] != END_SYSEX {
          assert bytes[1..][k] == bytes[k + 1];
        }
      }
      SysexAccumulate(q, bytes[1..], attached, fw);
      SpliceOne(p.stored, n, bytes);
    }
  }

  /** One byte other than END_SYSEX inside a sysex message is stored. */
  lemma SysexByte(p: Parser, b: Byte, attached: set<Slot>, fw: Firmware)
    requires ParserValid(p) && FirmwareValid(fw) && p.parsingSysex
    requires p.sysexBytesRead < MAX_DATA_BYTES && b != END_SYSEX
    ensures Safe(p, b, attached)
    ensures Step(p, b, attached, fw) == Outcome(p.(stored := p.stored[p.sysexBytesRead := b], sysexBytesRead := p.sysexBytesRead + 1), [], [])
  {
  }

  /** Storing the first byte, then splicing in the rest after it, splices in all of them. */
  lemma SpliceOne(st: seq<Byte>, n: nat, bytes: seq<Byte>)
    requires n + |bytes| <= |st| && |bytes| > 0
    ensures var s1 := st[n := bytes[0]];
            s1[..n + 1] + bytes[1..] + s1[n + |bytes|..] == st[..n] + bytes + st[n + |bytes|..]
  {
    var s1 := st[n := bytes[0]];
    assert s1[..n + 1] == st[..n] + [bytes[0]];
    assert s1[n + |bytes|..] == st[n + |bytes|..];
    assert [bytes[0]] + bytes[1..] == bytes;
  }

  /** The sysex frame of `command` and `data` up to END_SYSEX: the parser is in
      sysex mode with the command and the 7-bit pairs in the buffer. */
  lemma SysexBody(p: Parser, command: Byte, data: seq<int>, attached: set<Slot>, fw: Firmware)
    requires ParserValid(p) && FirmwareValid(fw) && !p.parsingSysex
    requires command < 128 && 2 * |data| + 1 <= MAX_DATA_BYTES
    ensures var body := [START_SYSEX, command] + Encode7(data);
            FeedSafe(p, body, attached, fw) &&
            var o := Feed(p, body, attached, fw);
            o.events == [] && o.written == [] && o.parser.parsingSysex &&
            o.parser.sysexBytesRead == 2 * |data| + 1 &&
            o.parser.stored[0] == command && o.parser.stored[1..2 * |data| + 1] == Encode7(data)
  {
    var payload := [command] + Encode7(data);
    assert END_SYSEX !in payload;
    var o1 := Step(p, START_SYSEX, attached, fw);
    assert o1.parser.parsingSysex && o1.parser.sysexBytesRead == 0 && o1.events == [] && o1.written == [];
    FeedOne(p, START_SYSEX, attached, fw);
    SysexAccumulate(o1.parser, payload, attached, fw);
    FeedAppend(p, [START_SYSEX], payload, attached, fw);
    assert [START_SYSEX] + payload == [START_SYSEX, command] + Encode7(data);
    var s := Feed(o1.parser, payload, attached, fw).parser.stored;
    assert s[..|payload|] == payload;
    assert s[1..2 * |data| + 1] == payload[1..];
  }

  /** `sendSysex` round trip: a complete sysex frame whose command the parser
      does not handle itself fires the sysex callback with the command, the
      number of 7-bit bytes, and a buffer that starts with exactly the pairs
      sent. */
  lemma SysexRoundTrip(p: Parser, command: Byte, data: seq<int>, attached: set<Slot>, fw: Firmware)
    requires ParserValid(p) && FirmwareValid(fw) && !p.parsingSysex
    requires command < 128 && command != REPORT_FIRMWARE && command != STRING_DATA
    requires 2 * |data| + 1 <= MAX_DATA_BYTES
    ensures FeedSafe(p, SysexFrame(command, data), attached, fw)
    ensures var o := Feed(p, SysexFrame(command, data), attached, fw);
            var argv := o.parser.stored[1..];
            o.written == [] && !o.parser.parsingSysex &&
            argv[..2 * |data|] == Encode7(data) &&
            o.events == (if SysexCallback in attached then [SysexMessage(command, 2 * |data|, argv)] else [])
  {
    var body := [START_SYSEX, command] + Encode7(data);
    SysexBody(p, command, data, attached, fw);
    var ob := Feed(p, body, attached, fw);
    var q := ob.parser;
    FeedOne(q, END_SYSEX, attached, fw);
    var oe := Step(q, END_SYSEX, attached, fw);
    assert q.stored[0] == command && q.sysexBytesRead == 2 * |data| + 1;
    ByteMod(2 * |data|);
    var d := SysexDispatch(q.(parsingSysex := false), attached, fw);
    assert d == (q.stored, if SysexCallback in attached then [SysexMessage(command, 2 * |data|, q.stored[1..])] else [], []);
    assert oe.parser == q.(parsingSysex := false);
    assert oe.written == [];
    assert oe.events == (if SysexCallback in attached then [SysexMessage(command, 2 * |data|, q.stored[1..])] else []);
    FeedAppend(p, body, [END_SYSEX], attached, fw);
    assert body + [END_SYSEX] == SysexFrame(command, data);
    assert q.stored[1..][..2 * |data|] == q.stored[1..2 * |data| + 1];
  }

  /** Text with no zero byte survives the 7-bit pairing: the characters recovered
      by decoding the pairs and stopping at the terminator are the ones sent. */
  lemma {:induction false} StringPairsRecovered(stored: seq<Byte>, chars: seq<Byte>)
    requires 1 <= |chars| && 2 * |chars| + 1 <= |stored|
    requires stored[1..2 * |chars| + 1] == Encode7(chars)
    requires 0 !in chars
    ensures CString(StringDecode(stored, |chars|)) == chars
  {
    var n := |chars|;
    var r := StringDecode(stored, n);
    var e := Encode7(chars);
    forall k | 0 <= k < n ensures r[k] == chars[k] {
      assert stored[2 * k + 1] == e[2 * k] && stored[2 * k + 2] == e[2 * k + 1];
      PairRecovers(stored, k, chars[k]);
      assert r[k] == DecodedPair(stored, k);
    }
    assert r[n - 1] == chars[n - 1] != 0;
    CStringStops(r, n);
    assert r[..n] == chars;
  }

  /** The two 7-bit halves of a byte, recombined and kept to eight bits, give the byte. */
  lemma PairRecovers(stored: seq<Byte>, k: nat, b: Byte)
    requires 2 * k + 2 < |stored|
    requires stored[2 * k + 1] == b % 128 && stored[2 * k + 2] == (b / 128) % 128
    ensures DecodedPair(stored, k) == b
  {
  }

  /** A C string ends at the first zero. */
  lemma {:induction false} CStringStops(s: seq<Byte>, n: nat)
    requires n < |s| && s[n] == 0 && forall k :: 0 <= k < n ==> s[k] != 0
    ensures CString(s) == s[..n]
  {
    if n > 0 {
      assert s[0] != 0 && s[1..][n - 1] == s[n];
      CStringStops(s[1..], n - 1);
      assert [s[0]] + s[1..][..n - 1] == s[..n];
    }
  }

  /** A STRING_DATA frame of one or more non-zero characters fires the string
      callback with exactly those characters. */
  lemma StringRoundTrip(p: Parser, chars: seq<Byte>, attached: set<Slot>, fw: Firmware)
    requires ParserValid(p) && FirmwareValid(fw) && !p.parsingSysex
    requires StringCallback in attached
    requires 1 <= |chars| && 2 * |chars| + 1 <= MAX_DATA_BYTES && 0 !in chars
    ensures FeedSafe(p, SysexFrame(STRING_DATA, chars), attached, fw)
    ensures var o := Feed(p, SysexFrame(STRING_DATA, chars), attached, fw);
            o.events == [StringMessage(chars)] && o.written == [] && !o.parser.parsingSysex
  {
    var body := [START_SYSEX, STRING_DATA] + Encode7(chars);
    SysexBody(p, STRING_DATA, chars, attached, fw);
    var ob := Feed(p, body, attached, fw);
    assert (ob.parser.sysexBytesRead - 1) / 2 == |chars|;
    StringPairsRecovered(ob.parser.stored, chars);
    FeedOne(ob.parser, END_SYSEX, attached, fw);
    FeedAppend(p, body, [END_SYSEX], attached, fw);
    assert body + [END_SYSEX] == SysexFrame(STRING_DATA, chars);
  }

  /** A REPORT_FIRMWARE query is answered on the stream with the firmware
      report and fires no callback. */
  lemma FirmwareQueryAnswered(p: Parser, attached: set<Slot>, fw: Firmware)
    requires ParserValid(p) && FirmwareValid(fw) && !p.parsingSysex
    ensures FeedSafe(p, SysexFrame(REPORT_FIRMWARE, []), attached, fw)
    ensures var o := Feed(p, SysexFrame(REPORT_FIRMWARE, []), attached, fw);
            o.events == [] && o.written == FirmwareReport(fw) && !o.parser.parsingSysex
  {
    var body := [START_SYSEX, REPORT_FIRMWARE] + Encode7([]);
    SysexBody(p, REPORT_FIRMWARE, [], attached, fw);
    var ob := Feed(p, body, attached, fw);
    FeedOne(ob.parser, END_SYSEX, attached, fw);
    FeedAppend(p, body, [END_SYSEX], attached, fw);
    assert body + [END_SYSEX] == SysexFrame(REPORT_FIRMWARE, []);
  }

  /** With the intended copy, a name of up to 253 bytes set with
      `setFirmwareNameAndVersion` is reported whole by `printFirmwareVersion`:
      the version raw, then every byte of the name as a 7-bit pair. */
  lemma NamedFirmwareReported(name: seq<Byte>, major: Byte, minor: Byte)
    requires |name| <= 253
    ensures FirmwareReport(NamedFirmware(name, major, minor)) ==
            [START_SYSEX, REPORT_FIRMWARE, major, minor] + Encode7(name) + [END_SYSEX]
  {
    ByteMod(|name| + 2);
    var fw := NamedFirmware(name, major, minor);
    assert fw.count == |name| + 2;
    assert fw.vector == [major, minor] + name + [0];
    assert fw.vector[0] == major && fw.vector[1] == minor && fw.vector[2..fw.count] == name;
  }

  /** As written, `printFirmwareVersion` reports the version of a name of up
      to 253 bytes followed by as many zero pairs as the name has bytes: the
      rejected copy left only zeros where the name should be. */
  lemma StoredFirmwareReported(name: seq<Byte>, major: Byte, minor: Byte)
    requires |name| <= 253
    ensures FirmwareReport(StoredFirmware(name, major, minor)) ==
            [START_SYSEX, REPORT_FIRMWARE, major, minor] + Encode7(seq(|name|, _ => 0)) + [END_SYSEX]
  {
    ByteMod(|name| + 2);
    var fw := StoredFirmware(name, major, minor);
    assert fw.count == |name| + 2;
    assert fw.vector[0] == major && fw.vector[1] == minor;
    assert fw.vector[2..fw.count] == seq(|name|, _ => 0);
  }

  /** So any name with a non-zero byte is lost: the as-written report differs
      from the intended one. */
  lemma StoredFirmwareLosesName(name: seq<Byte>, major: Byte, minor: Byte)
    requires |name| <= 253 && exists k :: 0 <= k < |name| && name[k] != 0
    ensures FirmwareReport(StoredFirmware(name, major, minor)) != FirmwareReport(NamedFirmware(name, major, minor))
  {
    StoredFirmwareReported(name, major, minor);
    NamedFirmwareReported(name, major, minor);
    var zeros: seq<Byte> := seq(|name|, _ => 0);
    ZeroPairsDiffer(name, zeros);
    var head := [START_SYSEX, REPORT_FIRMWARE, major, minor];
    Framed(head, Encode7(zeros), Encode7(name));
  }

  /** The 7-bit pairs of a byte run with a non-zero byte are not all zero. */
  lemma ZeroPairsDiffer(name: seq<Byte>, zeros: seq<Byte>)
    requires |zeros| == |name| && forall k :: 0 <= k < |zeros| ==> zeros[k] == 0
    requires exists k :: 0 <= k < |name| && name[k] != 0
    ensures Encode7(zeros) != Encode7(name)
  {
    var k :| 0 <= k < |name| && name[k] != 0;
    assert Encode7(zeros)[2 * k] == 0 && Encode7(zeros)[2 * k + 1] == 0;
    assert name[k] % 128 != 0 || (name[k] / 128) % 128 != 0;
  }

  /** Different bodies between the same head and END_SYSEX make different frames. */
  lemma Framed(head: seq<Byte>, a: seq<Byte>, b: seq<Byte>)
    requires |a| == |b| && a != b
    ensures head + a + [END_SYSEX] != head + b + [END_SYSEX]
  {
    var x := head + a + [END_SYSEX];
    var y := head + b + [END_SYSEX];
    assert x[|head|..|head| + |a|] == a;
    assert y[|head|..|head| + |b|] == b;
  }

  /** SYSTEM_RESET outside a sysex message resets the parser whatever it was
      waiting for; inside a sysex message it is only another payload byte. */
  lemma SystemResetOnlyOutsideSysex(p: Parser, attached: set<Slot>, fw: Firmware)
    requires ParserValid(p) && FirmwareValid(fw) && Safe(p, SYSTEM_RESET, attached)
    ensures var o := Step(p, SYSTEM_RESET, attached, fw);
            (!p.parsingSysex ==> o.parser == ResetParser() &&
                                 o.events == (if SystemResetCallback in attached then [SystemResetEvent] else [])) &&
            (p.parsingSysex ==> o.parser.parsingSysex && o.parser.sysexBytesRead == p.sysexBytesRead + 1 &&
                                o.parser.stored[p.sysexBytesRead] == SYSTEM_RESET && o.events == [])
  {
  }

  /** A command byte the parser does not know is ignored. Below 0xF0 only its
      high nibble is the command and the low nibble is left behind as the
      channel; from 0xF0 up (REPORT_VERSION and a stray END_SYSEX among them)
      the byte is the command and the parser is left exactly as it was. A
      pending multi-byte message stays pending either way. */
  lemma UnknownCommandIgnored(p: Parser, input: Byte, attached: set<Slot>, fw: Firmware)
    requires ParserValid(p) && FirmwareValid(fw) && !p.parsingSysex && input >= 128
    requires input < 0xF0 ==> input / 16 * 16 !in {ANALOG_MESSAGE, DIGITAL_MESSAGE, REPORT_ANALOG, REPORT_DIGITAL}
    requires input !in {SET_PIN_MODE, START_SYSEX, SYSTEM_RESET}
    ensures var o := Step(p, input, attached, fw);
            o.events == [] && o.written == [] &&
            o.parser == (if input < 0xF0 then p.(multiByteChannel := input % 16) else p)
  {
  }

  /** A read that found no data (0xFFFF) leaves the parser as it was and
      fires and writes nothing, even in the middle of a message. */
  lemma NoDataIgnored(p: Parser, attached: set<Slot>, fw: Firmware)
    requires ParserValid(p) && FirmwareValid(fw)
    ensures Safe(p, 0xFFFF, attached) && Step(p, 0xFFFF, attached, fw) == Outcome(p, [], [])
  {
  }

  /** Detaching undoes attaching for every overload except the sysex one, whose
      callback is set under any command but cleared only under START_SYSEX. */
  lemma DetachUndoesAttach(command: Byte, kind: CallbackKind)
    requires AttachSlot(command, kind).Some?
    ensures kind != SysexKind ==> DetachSlot(command) == AttachSlot(command, kind)
    ensures kind == SysexKind ==> (DetachSlot(command) == AttachSlot(command, kind) <==> command == START_SYSEX)
  {
  }
}
