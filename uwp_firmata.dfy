/** The Windows wrapper around the Firmata library (`UwpFirmata`, copied
    verbatim as `UapFirmata` and `UAPFirmataClient`): the bounded sysex and
    blob builder that shares one 31-byte buffer between its two modes, the I2C
    request framing, and `sysexInvoke`, which turns the 7-bit pairs of an
    incoming sysex message back into bytes. */
module UwpFirmata {
  import opened Protocol
  import opened Firmata

  /** Capacity of a sysex built with `appendSysex`. */
  const MAX_SYSEX_LEN: nat := 15
  /** Capacity of a blob built with `appendBlob`, and the size of `_dataBuffer`. */
  const MAX_BLOB_LEN: nat := 31

  // ---------------------------------------------------------------------------
  // sysexInvoke: reassembling 7-bit pairs

  /** `argv[i] | (argv[i + 1] << 7)` stored back into a `uint8_t`: bits 0..6
      come from the low byte, and bit 7 is set by either bit 7 of the low byte
      or bit 0 of the high byte; every higher bit of the shifted high byte is
      cut off by the store. */
  function PairByte(lo: Byte, hi: Byte): Byte
  {
    lo % 128 + (if lo >= 128 || hi % 2 == 1 then 128 else 0)
  }

  /** The first n reassembled bytes of an argument buffer. */
  function Reassemble(argv: seq<Byte>, n: nat): (r: seq<Byte>)
    requires 2 * n <= |argv|
    ensures |r| == n
    ensures forall k :: 0 <= k < n ==> r[k] == PairByte(argv[2 * k], argv[2 * k + 1])
  {
    seq(n, k requires 0 <= k < n => PairByte(argv[2 * k], argv[2 * k + 1]))
  }

  /** The argument buffer after `sysexInvoke`'s in-place loop and its terminator. */
  function Reassembled(argv: seq<Byte>, n: nat): (r: seq<Byte>)
    requires 2 * n <= |argv| && n < |argv|
    ensures |r| == |argv| && r[..n] == Reassemble(argv, n) && r[n] == 0
    ensures r[n + 1..] == argv[n + 1..]
  {
    Reassemble(argv, n) + [0] + argv[n + 1..]
  }

  /** The event `sysexInvoke` raises. */
  datatype Reply =
    | I2cReply(address: Byte, register: Byte, data: seq<Byte>)
    | SysexReply(command: Byte, data: seq<Byte>)

  /** The effective argument count: a trailing odd byte is dropped. */
  function EvenCount(argc: Byte): (r: nat)
    ensures r % 2 == 0 && r <= argc && argc - r <= 1
  {
    if argc % 2 == 1 then argc - 1 else argc
  }

  lemma EvenCountOfEven(n: nat)
    requires 2 * n < 256
    ensures EvenCount(2 * n) == 2 * n && EvenCount(2 * n) / 2 == n
  {
  }

  /** `sysexInvoke` stays inside an argument buffer of `size` bytes: the pairs
      it reads end at EvenCount(argc) - 1, its terminator goes to byte
      EvenCount(argc) / 2, and an I2C reply also reads bytes 0 and 1. The
      source checks none of this. */
  predicate InvokeInBounds(command: Byte, argc: Byte, size: nat) {
    EvenCount(argc) <= size && EvenCount(argc) / 2 < size && (command == I2C_REPLY ==> 2 <= size)
  }

  /** What `sysexInvoke` raises for `command` with `argc` bytes of `argv`: an
      I2C reply split into address, register and payload, or any other sysex
      passed through with its whole payload; None where the source would read
      or write outside `argv`. */
  function Invoke(command: Byte, argc: Byte, argv: seq<Byte>): (r: Option<Reply>)
    ensures r.None? <==> !InvokeInBounds(command, argc, |argv|)
    ensures r.Some? ==>
            var n := EvenCount(argc) / 2;
            var bytes := Reassemble(argv, n);
            if command == I2C_REPLY then
              r.value.I2cReply? && |r.value.data| == (if n > 2 then n - 2 else 0) &&
              (n >= 2 ==> r.value.address == bytes[0] && r.value.register == bytes[1] && r.value.data == bytes[2..])
            else
              r.value == SysexReply(command, bytes)
  {
    if !InvokeInBounds(command, argc, |argv|) then None
    else
      var n := EvenCount(argc) / 2;
      var buf := Reassembled(argv, n);
      if command == I2C_REPLY then Some(I2cReply(buf[0], buf[1], if n > 2 then buf[2..n] else []))
      else Some(SysexReply(command, buf[..n]))
  }

  /** The first loop of `sysexInvoke`: pair k of `argv` is folded into byte k,
      in place, and the reassembled bytes are zero-terminated; returns their
      number. Where the loop or its terminator would leave `argv`, the buffer
      is left alone and `inBounds` is false. */
  method ReassembleInPlace(argc: Byte, argv: array<Byte>) returns (len: nat, inBounds: bool)
    modifies argv
    ensures len == EvenCount(argc) / 2
    ensures inBounds <==> EvenCount(argc) <= argv.Length && len < argv.Length
    ensures inBounds ==> argv[..] == Reassembled(old(argv[..]), len)
    ensures !inBounds ==> argv[..] == old(argv[..])
  {
    ghost var a0 := argv[..];
    var count := argc;
    if count % 2 == 1 {
      count := count - 1;
    }
    ghost var half := EvenCount(argc) / 2;
    assert count == 2 * half;
    if count > argv.Length || count / 2 >= argv.Length {
      return count / 2, false;
    }
    var i := 0;
    len := 0;
    while i < count
      invariant i == 2 * len && len <= half
      invariant forall k :: 0 <= k < len ==> argv[k] == PairByte(a0[2 * k], a0[2 * k + 1])
      invariant forall k :: len <= k < argv.Length ==> argv[k] == a0[k]
    {
      assert argv[i] == a0[i] && argv[i + 1] == a0[i + 1];
      argv[len] := PairByte(argv[i], argv[i + 1]);
      i := i + 2;
      len := len + 1;
    }
    argv[len] := 0;
    ReassembledFrom(a0, len, argv[..]);
    inBounds := true;
  }

  /** A buffer holding the first n pairs, then a zero, then the rest of the
      original is the reassembled buffer. */
  lemma ReassembledFrom(a0: seq<Byte>, n: nat, b: seq<Byte>)
    requires 2 * n <= |a0| == |b| && n < |b| && b[n] == 0
    requires forall k :: 0 <= k < n ==> b[k] == PairByte(a0[2 * k], a0[2 * k + 1])
    requires forall k :: n < k < |b| ==> b[k] == a0[k]
    ensures b == Reassembled(a0, n)
  {
    var r := Reassembled(a0, n);
    forall k | 0 <= k < |b| ensures b[k] == r[k] {
      if k < n {
        assert r[k] == r[..n][k];
      } else if k > n {
        assert r[k] == r[n + 1..][k - n - 1];
      }
    }
  }

  /** `sysexInvoke`: reassembles the payload in place, then copies it out into
      the event, splitting off address and register for an I2C reply. A call
      the source would answer by reading or writing outside `argv` raises
      nothing here and leaves the buffer as it was. */
  method SysexInvoke(command: Byte, argc: Byte, argv: array<Byte>) returns (reply: Option<Reply>)
    modifies argv
    ensures reply == Invoke(command, argc, old(argv[..]))
    ensures reply.Some? ==> argv[..] == Reassembled(old(argv[..]), EvenCount(argc) / 2)
    ensures reply.None? ==> argv[..] == old(argv[..])
  {
    if command == I2C_REPLY && argv.Length < 2 {
      return None;
    }
    var len, inBounds := ReassembleInPlace(argc, argv);
    if !inBounds {
      return None;
    }
    var data: seq<Byte> := [];
    if command == I2C_REPLY {
      var j := 2;
      while j < len
        invariant 2 <= j && (len >= 2 ==> j <= len)
        invariant data == argv[2..if j <= len then j else 2]
      {
        data := data + [argv[j]];
        j := j + 1;
      }
      reply := Some(I2cReply(argv[0], argv[1], data));
    } else {
      var j := 0;
      while j < len
        invariant j <= len && data == argv[..j]
      {
        data := data + [argv[j]];
        j := j + 1;
      }
      reply := Some(SysexReply(command, data));
    }
  }

  /** Every byte survives `sendValueAsTwo7bitBytes` followed by the pair
      reassembly: the pairing is an exact inverse on 8-bit values. */
  lemma PairInvertsTwoSevenBit(b: Byte)
    ensures var e := TwoSevenBit(b); PairByte(e[0], e[1]) == b
  {
  }

  /** A signed `char` sent with `sendValueAsTwo7bitBytes` (sign-extended to an
      int) still reassembles to its original 8 bits. */
  lemma PairInvertsSignedChar(b: Byte)
    ensures var e := TwoSevenBit(SignedChar(b)); PairByte(e[0], e[1]) == b
  {
  }

  /** Reassembly inverts the 7-bit encoding of a whole payload. */
  lemma ReassembleInvertsEncode7(argv: seq<Byte>, bytes: seq<Byte>)
    requires 2 * |bytes| <= |argv| && argv[..2 * |bytes|] == Encode7(bytes)
    ensures Reassemble(argv, |bytes|) == bytes
  {
    forall k | 0 <= k < |bytes| ensures PairByte(argv[2 * k], argv[2 * k + 1]) == bytes[k] {
      assert argv[2 * k] == Encode7(bytes)[2 * k] && argv[2 * k + 1] == Encode7(bytes)[2 * k + 1];
      PairInvertsTwoSevenBit(bytes[k]);
    }
  }

  /** A sysex message other than an I2C reply, whose payload is the 7-bit
      encoding of `bytes`, is raised with exactly those bytes. */
  lemma InvokeRoundTrip(command: Byte, argv: seq<Byte>, bytes: seq<Byte>)
    requires command != I2C_REPLY
    requires 2 * |bytes| < |argv| && 2 * |bytes| < 256 && 2 <= |argv|
    requires argv[..2 * |bytes|] == Encode7(bytes)
    ensures Invoke(command, 2 * |bytes|, argv) == Some(SysexReply(command, bytes))
  {
    EvenCountOfEven(|bytes|);
    ReassembleInvertsEncode7(argv, bytes);
  }

  /** An I2C reply whose payload encodes an address, a register and data is
      split back into exactly those. */
  lemma I2cReplyRoundTrip(argv: seq<Byte>, address: Byte, register: Byte, data: seq<Byte>)
    requires 2 * (|data| + 2) < |argv| && 2 * (|data| + 2) < 256
    requires argv[..2 * (|data| + 2)] == Encode7([address, register] + data)
    ensures Invoke(I2C_REPLY, 2 * (|data| + 2), argv) == Some(I2cReply(address, register, data))
  {
    var bytes := [address, register] + data;
    EvenCountOfEven(|bytes|);
    ReassembleInvertsEncode7(argv, bytes);
    assert bytes[2..] == data;
  }

  /** The count Firmata hands the sysex callback, `sysexBytesRead - 1` stored
      in a byte, keeps `sysexInvoke` inside the bytes after the command exactly
      when the sysex held at least its command byte. */
  lemma SysexCountInBounds(command: Byte, bytesRead: nat)
    requires bytesRead <= MAX_DATA_BYTES
    ensures InvokeInBounds(command, (bytesRead - 1) % 256, MAX_DATA_BYTES - 1) <==> bytesRead >= 1
  {
  }

  /** An empty sysex (START_SYSEX straight followed by END_SYSEX) reaches the
      sysex callback with the stale command byte and a count of 255, and
      `sysexInvoke` would then run past the argument buffer. */
  lemma EmptySysexOverruns(p: Parser, attached: set<Slot>, fw: Firmware)
    requires ParserValid(p) && FirmwareValid(fw) && !p.parsingSysex
    requires SysexCallback in attached && p.stored[0] != REPORT_FIRMWARE && p.stored[0] != STRING_DATA
    ensures FeedSafe(p, [START_SYSEX, END_SYSEX], attached, fw)
    ensures var o := Feed(p, [START_SYSEX, END_SYSEX], attached, fw);
            o.events == [SysexMessage(p.stored[0], 255, p.stored[1..])] &&
            Invoke(p.stored[0], 255, p.stored[1..]).None?
  {
    var o1 := Step(p, START_SYSEX, attached, fw);
    assert o1.parser == p.(parsingSysex := true, sysexBytesRead := 0) && o1.events == [];
    var o2 := Step(o1.parser, END_SYSEX, attached, fw);
    assert o2.events == [SysexMessage(p.stored[0], 255, p.stored[1..])];
    var run := [START_SYSEX, END_SYSEX];
    assert run[1..] == [END_SYSEX] && run[1..][1..] == [];
    assert Feed(o2.parser, [], attached, fw).events == [];
  }

  /** The count an empty sysex evidently calls for: zero bytes after the
      command, and `sysexBytesRead - 1` otherwise. */
  function CountedArgc(bytesRead: nat): (r: Byte)
    requires bytesRead <= MAX_DATA_BYTES
    ensures bytesRead >= 1 ==> r == (bytesRead - 1) % 256
  {
    if bytesRead == 0 then 0 else bytesRead - 1
  }

  /** With the corrected count every finished sysex keeps `sysexInvoke`
      inside the argument buffer, and an empty one raises an empty payload. */
  lemma CountedArgcInBounds(command: Byte, bytesRead: nat, argv: seq<Byte>)
    requires bytesRead <= MAX_DATA_BYTES && |argv| == MAX_DATA_BYTES - 1
    ensures Invoke(command, CountedArgc(bytesRead), argv).Some?
    ensures bytesRead <= 1 && command != I2C_REPLY ==>
            Invoke(command, CountedArgc(bytesRead), argv) == Some(SysexReply(command, []))
  {
    if bytesRead <= 1 && command != I2C_REPLY {
      assert Reassemble(argv, 0) == [];
    }
  }

  // ---------------------------------------------------------------------------
  // The sysex / blob builder as a function of its fields

  /** The builder's fields; `buffer` is `_dataBuffer`, shared by both modes. */
  datatype Build = Build(sysCommand: Byte, sysPosition: nat, blobStarted: bool, blobPosition: nat, buffer: seq<Byte>)

  /** A sysex and a blob are never open together, positions stay within their
      capacities, and a closed mode has position 0. */
  predicate BuildValid(b: Build) {
    |b.buffer| == MAX_BLOB_LEN &&
    !(b.sysCommand != 0 && b.blobStarted) &&
    b.sysPosition <= MAX_SYSEX_LEN && b.blobPosition <= MAX_BLOB_LEN &&
    (b.sysCommand == 0 ==> b.sysPosition == 0) && (!b.blobStarted ==> b.blobPosition == 0)
  }

  /** The bytes buffered by whichever mode is open. */
  function Pending(b: Build): seq<Byte>
    requires BuildValid(b)
  {
    if b.blobStarted then b.buffer[..b.blobPosition] else b.buffer[..b.sysPosition]
  }

  /** One builder call: the new fields, the returned flag and the bytes written. */
  datatype Effect = Effect(state: Build, ok: bool, written: seq<Byte>)

  /** The frame `endBlob` writes: the blob bytes are sent raw, not as pairs. */
  function BlobFrame(blobCommand: Byte, data: seq<Byte>): (r: seq<Byte>)
    ensures |r| == |data| + 3 && r[0] == START_SYSEX && r[1] == blobCommand && r[|r| - 1] == END_SYSEX
    ensures r[2..|r| - 1] == data
  {
    [START_SYSEX, blobCommand] + data + [END_SYSEX]
  }

  function BeginSysexEffect(b: Build, command: Byte): (r: Effect)
    requires BuildValid(b)
    ensures BuildValid(r.state) && r.written == []
    ensures r.ok <==> !b.blobStarted
    ensures r.ok ==> r.state == b.(sysCommand := command, sysPosition := 0) && Pending(r.state) == []
    ensures !r.ok ==> r.state == b
  {
    if b.blobStarted then Effect(b, false, [])
    else Effect(b.(sysCommand := command, sysPosition := 0), true, [])
  }

  function AppendSysexEffect(b: Build, x: Byte): (r: Effect)
    requires BuildValid(b)
    ensures BuildValid(r.state) && r.written == []
    ensures r.ok <==> b.sysCommand != 0 && b.sysPosition < MAX_SYSEX_LEN && !b.blobStarted
    ensures r.ok ==> r.state.sysCommand == b.sysCommand && Pending(r.state) == Pending(b) + [x]
    ensures !r.ok ==> r.state == b
  {
    if b.sysCommand != 0 && b.sysPosition < MAX_SYSEX_LEN && !b.blobStarted then
      Effect(b.(buffer := b.buffer[b.sysPosition := x], sysPosition := b.sysPosition + 1), true, [])
    else Effect(b, false, [])
  }

  function EndSysexEffect(b: Build): (r: Effect)
    requires BuildValid(b)
    ensures BuildValid(r.state)
    ensures r.ok <==> b.sysCommand != 0 && !b.blobStarted
    ensures r.ok ==> r.written == SysexFrame(b.sysCommand, Pending(b)) &&
                     r.state.sysCommand == 0 && Pending(r.state) == [] && r.state.buffer == b.buffer
    ensures !r.ok ==> r.state == b && r.written == []
  {
    if b.sysCommand != 0 && !b.blobStarted then
      Effect(b.(sysCommand := 0, sysPosition := 0), true, SysexFrame(b.sysCommand, b.buffer[..b.sysPosition]))
    else Effect(b, false, [])
  }

  function BeginBlobEffect(b: Build): (r: Effect)
    requires BuildValid(b)
    ensures BuildValid(r.state) && r.written == []
    ensures r.ok <==> b.sysCommand == 0
    ensures r.ok ==> r.state.blobStarted && Pending(r.state) == []
    ensures !r.ok ==> r.state == b
  {
    if b.sysCommand != 0 then Effect(b, false, [])
    else Effect(b.(blobStarted := true, blobPosition := 0), true, [])
  }

  function EndBlobEffect(b: Build, blobCommand: Byte): (r: Effect)
    requires BuildValid(b)
    ensures BuildValid(r.state)
    ensures r.ok <==> b.blobStarted && b.sysCommand == 0
    ensures r.ok ==> r.written == BlobFrame(blobCommand, Pending(b)) &&
                     !r.state.blobStarted && Pending(r.state) == [] && r.state.buffer == b.buffer
    ensures !r.ok ==> r.state == b && r.written == []
  {
    if !b.blobStarted || b.sysCommand != 0 then Effect(b, false, [])
    else Effect(b.(blobPosition := 0, blobStarted := false), true, BlobFrame(blobCommand, b.buffer[..b.blobPosition]))
  }

  /** `appendBlob`: a full buffer is first flushed as one blob and reopened;
      the byte is stored with its top bit cleared. */
  function AppendBlobEffect(b: Build, x: Byte, blobCommand: Byte): (r: Effect)
    requires BuildValid(b)
    ensures BuildValid(r.state)
    ensures r.ok <==> b.blobStarted && b.sysCommand == 0
    ensures r.ok && b.blobPosition < MAX_BLOB_LEN ==> Pending(r.state) == Pending(b) + [x % 128] && r.written == []
    ensures r.ok && b.blobPosition == MAX_BLOB_LEN ==> Pending(r.state) == [x % 128] && r.written == BlobFrame(blobCommand, Pending(b))
    ensures r.ok ==> r.state.blobStarted && r.state.sysCommand == 0
    ensures !r.ok ==> r.state == b && r.written == []
  {
    if !b.blobStarted || b.sysCommand != 0 then Effect(b, false, [])
    else
      var flushed := if b.blobPosition >= MAX_BLOB_LEN then EndBlobEffect(b, blobCommand) else Effect(b, true, []);
      var c := if b.blobPosition >= MAX_BLOB_LEN then BeginBlobEffect(flushed.state).state else flushed.state;
      Effect(c.(buffer := c.buffer[c.blobPosition := x % 128], blobPosition := c.blobPosition + 1), true, flushed.written)
  }

  // ---------------------------------------------------------------------------
  // Whole builder sessions

  /** `appendSysex` of each byte in turn: the state reached, whether every call
      succeeded. */
  function AppendSysexAll(b: Build, xs: seq<Byte>): (r: (Build, bool))
    requires BuildValid(b)
    ensures BuildValid(r.0)
    decreases |xs|
  {
    if |xs| == 0 then (b, true)
    else
      var e := AppendSysexEffect(b, xs[0]);
      var rest := AppendSysexAll(e.state, xs[1..]);
      (rest.0, e.ok && rest.1)
  }

  /** With a sysex open and room for every byte, all appends succeed and the
      buffer holds exactly the bytes appended. */
  lemma {:induction false} AppendSysexAllBuffers(b: Build, xs: seq<Byte>)
    requires BuildValid(b) && b.sysCommand != 0 && b.sysPosition + |xs| <= MAX_SYSEX_LEN
    ensures var r := AppendSysexAll(b, xs);
            r.1 && r.0.sysCommand == b.sysCommand && Pending(r.0) == Pending(b) + xs
    decreases |xs|
  {
    if |xs| > 0 {
      var e := AppendSysexEffect(b, xs[0]);
      AppendSysexAllBuffers(e.state, xs[1..]);
      assert Pending(b) + [xs[0]] + xs[1..] == Pending(b) + xs;
    }
  }

  /** `beginSysex(c)`, up to 15 `appendSysex` calls and `endSysex` send exactly
      one sysex frame of c and the appended bytes, and leave the builder idle. */
  lemma SysexSession(b: Build, command: Byte, xs: seq<Byte>)
    requires BuildValid(b) && !b.blobStarted && command != 0 && |xs| <= MAX_SYSEX_LEN
    ensures var s1 := BeginSysexEffect(b, command).state;
            var s2 := AppendSysexAll(s1, xs);
            var e := EndSysexEffect(s2.0);
            s2.1 && e.ok && e.written == SysexFrame(command, xs) && e.state.sysCommand == 0
  {
    var s1 := BeginSysexEffect(b, command).state;
    assert s1.sysCommand == command && Pending(s1) == [];
    AppendSysexAllBuffers(s1, xs);
    var s2 := AppendSysexAll(s1, xs);
    assert s2.1 && s2.0.sysCommand == command && Pending(s2.0) == xs;
  }

  /** The blobs a run of bytes is sent as: full 31-byte blobs, then one blob
      with the rest (possibly empty). */
  function BlobFrames(blobCommand: Byte, data: seq<Byte>): (r: seq<Byte>)
    ensures |data| <= MAX_BLOB_LEN ==> r == BlobFrame(blobCommand, data)
    decreases |data|
  {
    if |data| <= MAX_BLOB_LEN then BlobFrame(blobCommand, data)
    else BlobFrame(blobCommand, data[..MAX_BLOB_LEN]) + BlobFrames(blobCommand, data[MAX_BLOB_LEN..])
  }

  /** A full blob's worth of bytes followed by more is sent as that blob first. */
  lemma BlobFramesFull(blobCommand: Byte, full: seq<Byte>, rest: seq<Byte>)
    requires |full| == MAX_BLOB_LEN && |rest| > 0
    ensures BlobFrames(blobCommand, full + rest) == BlobFrame(blobCommand, full) + BlobFrames(blobCommand, rest)
  {
    var all := full + rest;
    assert all[..MAX_BLOB_LEN] == full && all[MAX_BLOB_LEN..] == rest;
  }

  /** `appendBlob` of each byte in turn: the state reached and the bytes written. */
  function AppendBlobAll(b: Build, xs: seq<Byte>, blobCommand: Byte): (r: (Build, seq<Byte>))
    requires BuildValid(b)
    ensures BuildValid(r.0)
    decreases |xs|
  {
    if |xs| == 0 then (b, [])
    else
      var e := AppendBlobEffect(b, xs[0], blobCommand);
      var rest := AppendBlobAll(e.state, xs[1..], blobCommand);
      (rest.0, e.written + rest.1)
  }

  /** Each byte with its top bit cleared, as `appendBlob` stores it. */
  function Masked(xs: seq<Byte>): (r: seq<Byte>)
    ensures |r| == |xs|
  {
    if |xs| == 0 then [] else [xs[0] % 128] + Masked(xs[1..])
  }

  /** With a blob open, appending a run of bytes then ending the blob sends the
      pending bytes followed by the masked run as consecutive blobs of at most
      31 bytes each. */
  lemma {:induction false} BlobChunks(b: Build, xs: seq<Byte>, blobCommand: Byte)
    requires BuildValid(b) && b.blobStarted
    ensures var r := AppendBlobAll(b, xs, blobCommand);
            r.0.blobStarted && r.0.sysCommand == 0 &&
            r.1 + EndBlobEffect(r.0, blobCommand).written == BlobFrames(blobCommand, Pending(b) + Masked(xs))
    decreases |xs|
  {
    if |xs| == 0 {
      assert AppendBlobAll(b, xs, blobCommand) == (b, []);
      assert Pending(b) + Masked(xs) == Pending(b);
      assert EndBlobEffect(b, blobCommand).written == BlobFrame(blobCommand, Pending(b));
    } else {
      var e := AppendBlobEffect(b, xs[0], blobCommand);
      BlobChunks(e.state, xs[1..], blobCommand);
      BlobChunksStep(b, xs, blobCommand);
    }
  }

  /** The inductive step of `BlobChunks`: one `appendBlob` followed by a run
      whose blobs are already known. */
  lemma BlobChunksStep(b: Build, xs: seq<Byte>, blobCommand: Byte)
    requires BuildValid(b) && b.blobStarted && |xs| > 0
    requires var e := AppendBlobEffect(b, xs[0], blobCommand);
             var r := AppendBlobAll(e.state, xs[1..], blobCommand);
             r.0.blobStarted && r.0.sysCommand == 0 &&
             r.1 + EndBlobEffect(r.0, blobCommand).written == BlobFrames(blobCommand, Pending(e.state) + Masked(xs[1..]))
    ensures var r := AppendBlobAll(b, xs, blobCommand);
            r.0.blobStarted && r.0.sysCommand == 0 &&
            r.1 + EndBlobEffect(r.0, blobCommand).written == BlobFrames(blobCommand, Pending(b) + Masked(xs))
  {
    var e := AppendBlobEffect(b, xs[0], blobCommand);
    var r := AppendBlobAll(e.state, xs[1..], blobCommand);
    assert AppendBlobAll(b, xs, blobCommand) == (r.0, e.written + r.1);
    var end := EndBlobEffect(r.0, blobCommand).written;
    var later := r.1 + end;
    AppendAssoc(e.written, r.1, end);
    if b.blobPosition < MAX_BLOB_LEN {
      BlobChunksRoom(b, xs, blobCommand, later);
    } else {
      BlobChunksFlush(b, xs, blobCommand, later);
    }
  }

  /** The non-flushing case of `BlobChunksStep`: the byte joins the pending blob. */
  lemma BlobChunksRoom(b: Build, xs: seq<Byte>, blobCommand: Byte, later: seq<Byte>)
    requires BuildValid(b) && b.blobStarted && |xs| > 0 && b.blobPosition < MAX_BLOB_LEN
    requires later == BlobFrames(blobCommand, Pending(AppendBlobEffect(b, xs[0], blobCommand).state) + Masked(xs[1..]))
    ensures AppendBlobEffect(b, xs[0], blobCommand).written + later == BlobFrames(blobCommand, Pending(b) + Masked(xs))
  {
    var e := AppendBlobEffect(b, xs[0], blobCommand);
    MaskedCons(xs);
    assert e.written == [];
    assert Pending(e.state) + Masked(xs[1..]) == Pending(b) + Masked(xs);
  }

  lemma MaskedCons(xs: seq<Byte>)
    requires |xs| > 0
    ensures Masked(xs) == [xs[0] % 128] + Masked(xs[1..])
  {
  }

  /** The flushing case of `BlobChunksStep`: the full buffer goes out first. */
  lemma BlobChunksFlush(b: Build, xs: seq<Byte>, blobCommand: Byte, later: seq<Byte>)
    requires BuildValid(b) && b.blobStarted && |xs| > 0 && b.blobPosition == MAX_BLOB_LEN
    requires later == BlobFrames(blobCommand, Pending(AppendBlobEffect(b, xs[0], blobCommand).state) + Masked(xs[1..]))
    ensures AppendBlobEffect(b, xs[0], blobCommand).written + later == BlobFrames(blobCommand, Pending(b) + Masked(xs))
  {
    var e := AppendBlobEffect(b, xs[0], blobCommand);
    MaskedCons(xs);
    assert Masked(xs) == Pending(e.state) + Masked(xs[1..]);
    assert Pending(b) + Masked(xs) == Pending(b) + (Pending(e.state) + Masked(xs[1..]));
    BlobFramesFull(blobCommand, Pending(b), Pending(e.state) + Masked(xs[1..]));
  }

  // ---------------------------------------------------------------------------
  // I2C request framing

  /** A `char` of the request data as `sendValueAsTwo7bitBytes` receives it:
      sign-extended from 8 bits. */
  function SignedChar(b: Byte): (r: int)
    ensures -128 <= r < 128 && r % 256 == b
  {
    if b >= 128 then b - 256 else b
  }

  function SignedChars(data: seq<Byte>): (r: seq<int>)
    ensures |r| == |data| && forall k :: 0 <= k < |data| ==> r[k] == SignedChar(data[k])
  {
    seq(|data|, k requires 0 <= k < |data| => SignedChar(data[k]))
  }

  /** `sendI2cSysex`: an I2C_REQUEST sysex with the address and read/write mask
      raw, the register as a pair unless it is 0xFF, and each data char as a pair. */
  function I2cRequestFrame(address: Byte, mask: Byte, reg: Byte, data: seq<Byte>): (r: seq<Byte>)
    ensures |r| == 5 + 2 * |data| + (if reg != 0xFF then 2 else 0)
    ensures r[..4] == [START_SYSEX, I2C_REQUEST, address, mask] && r[|r| - 1] == END_SYSEX
  {
    [START_SYSEX, I2C_REQUEST, address, mask] + (if reg != 0xFF then TwoSevenBit(reg) else [])
      + Encode7(SignedChars(data)) + [END_SYSEX]
  }

  /** The request `readI2c` sends, or nothing for a continuous read without a
      register. */
  function ReadRequest(address: Byte, numBytes: nat, reg: Byte, continuous: bool): (r: seq<Byte>)
    ensures r == [] <==> continuous && reg == 0xFF
    ensures r != [] ==> |r| == 7 + (if reg != 0xFF then 2 else 0) && r[3] == (if continuous then 0x10 else 0x08) &&
                        r[|r| - 3..|r| - 1] == TwoSevenBit(SignedChar(numBytes % 256))
  {
    if continuous && reg == 0xFF then []
    else I2cRequestFrame(address, if continuous then 0x10 else 0x08, reg, [numBytes % 256])
  }

  /** The UTF-16 code units of one character, as a `Platform::String` holds
      it: the character itself below U+10000, a surrogate pair above. */
  function CodeUnits(c: char): (r: seq<int>)
    ensures 1 <= |r| <= 2 && (|r| == 1 <==> c as int < 0x1_0000)
    ensures |r| == 1 ==> r[0] == c as int
    ensures forall k :: 0 <= k < |r| ==> 0 <= r[k] < 0x1_0000
    ensures (0 in r) <==> c == '\0'
  {
    var v := c as int;
    if v < 0x1_0000 then [v] else [0xD800 + (v - 0x1_0000) / 0x400, 0xDC00 + (v - 0x1_0000) % 0x400]
  }

  /** The UTF-16 code units of a string; `Length()` counts these. */
  function Utf16(s: seq<char>): (r: seq<int>)
    ensures |r| >= |s|
    ensures forall k :: 0 <= k < |r| ==> 0 <= r[k] < 0x1_0000
    ensures (0 in r) <==> '\0' in s
  {
    if |s| == 0 then [] else CodeUnits(s[0]) + Utf16(s[1..])
  }

  /** The units a `std::wstring` built from the string's buffer holds: those
      before the first NUL. */
  function UntilNul(u: seq<int>): (r: seq<int>)
    ensures |r| <= |u| && r == u[..|r|] && 0 !in r
    ensures |r| < |u| ==> u[|r|] == 0
  {
    if |u| == 0 || u[0] == 0 then [] else [u[0]] + UntilNul(u[1..])
  }

  /** The low eight bits of each code unit, as the `std::string` copy keeps them. */
  function LowBytes(u: seq<int>): (r: seq<Byte>)
    ensures |r| == |u| && forall k :: 0 <= k < |u| ==> r[k] == u[k] % 256
  {
    seq(|u|, k requires 0 <= k < |u| => u[k] % 256)
  }

  /** Some code unit before the last one is a NUL. */
  predicate NulBeforeLast(u: seq<int>) {
    exists k :: 0 <= k < |u| - 1 && u[k] == 0
  }

  /** The bytes `writeI2c` sends for a message: the wide string stops at the
      first NUL and each unit is cut to eight bits, yet `Length()` bytes of
      the narrowed copy are read. That stays inside the copy and its
      terminator, and so sends one byte per code unit, exactly when no NUL
      comes before the last unit; otherwise the read runs past the copy and
      the result is None. */
  function Narrow(message: seq<char>): (r: Option<seq<Byte>>)
    ensures r.None? <==> NulBeforeLast(Utf16(message))
    ensures r.Some? ==> r.value == LowBytes(Utf16(message))
  {
    var u := Utf16(message);
    var w := UntilNul(u);
    if |w| + 1 < |u| then
      assert u[|w|] == 0;
      None
    else
      CopyReachesEnd(u);
      Some(LowBytes(w) + if |w| < |u| then [0] else [])
  }

  /** When the copy runs to the last unit, the copy and its terminator hold
      every unit, and no NUL comes earlier. */
  lemma CopyReachesEnd(u: seq<int>)
    requires |UntilNul(u)| + 1 >= |u|
    ensures var w := UntilNul(u);
            !NulBeforeLast(u) && LowBytes(w) + (if |w| < |u| then [0] else []) == LowBytes(u)
  {
    var w := UntilNul(u);
    if |w| < |u| {
      assert u == w + [0];
      assert LowBytes(w) + [0] == LowBytes(u);
    } else {
      assert w == u;
    }
    assert forall k :: 0 <= k < |u| - 1 ==> u[k] == w[k];
  }

  /** A message free of NUL and of characters above U+FFFF is sent as one
      byte per character, the character's low eight bits. */
  lemma {:induction false} NarrowBasicPlane(message: seq<char>)
    requires '\0' !in message && forall k :: 0 <= k < |message| ==> message[k] as int < 0x1_0000
    ensures Narrow(message).Some?
    ensures var b := Narrow(message).value;
            |b| == |message| && forall k :: 0 <= k < |b| ==> b[k] == message[k] as int % 256
  {
    Utf16BasicPlane(message);
  }

  lemma {:induction false} Utf16BasicPlane(s: seq<char>)
    requires forall k :: 0 <= k < |s| ==> s[k] as int < 0x1_0000
    ensures |Utf16(s)| == |s| && forall k :: 0 <= k < |s| ==> Utf16(s)[k] == s[k] as int
  {
    if |s| > 0 {
      Utf16BasicPlane(s[1..]);
      assert Utf16(s) == [s[0] as int] + Utf16(s[1..]);
    }
  }

  /** A NUL with anything after it sends the message past the narrowed copy. */
  lemma EmbeddedNulOverruns(before: seq<char>, after: seq<char>)
    requires after != []
    ensures Narrow(before + ['\0'] + after).None?
  {
    var m := before + ['\0'] + after;
    Utf16Append(before + ['\0'], after);
    Utf16Append(before, ['\0']);
    var u := Utf16(m);
    assert Utf16(['\0']) == [0];
    assert u[|Utf16(before)|] == 0;
    assert |Utf16(after)| >= 1;
  }

  /** The code units of a concatenation are the concatenated code units. */
  lemma {:induction false} Utf16Append(a: seq<char>, b: seq<char>)
    ensures Utf16(a + b) == Utf16(a) + Utf16(b)
  {
    if |a| == 0 {
      assert a + b == b;
    } else {
      assert (a + b)[1..] == a[1..] + b;
      Utf16Append(a[1..], b);
    }
  }

  // ---------------------------------------------------------------------------
  // The wrapper object

  class UwpFirmata {
    /** The Firmata library instance every call writes through. */
    const raw: FirmataClass
    /** SYSEX_BLOB_COMMAND, whose value is not part of this model. */
    const blobCommand: Byte
    var sysCommand: Byte
    var sysPosition: nat
    var blobStarted: bool
    var blobPosition: nat
    const dataBuffer: array<Byte>

    ghost function State(): Build
      reads this, dataBuffer
    {
      Build(sysCommand, sysPosition, blobStarted, blobPosition, dataBuffer[..])
    }

    ghost predicate Valid()
      reads this, dataBuffer
    {
      BuildValid(State())
    }

    /** Both modes closed; the digital and analog callbacks and the sysex
        callback (under I2C_REPLY) attached to the library. */
    constructor (raw: FirmataClass, blobCommand: Byte)
      modifies raw`attached
      ensures Valid() && fresh(dataBuffer) && this.raw == raw && this.blobCommand == blobCommand
      ensures State().sysCommand == 0 && !State().blobStarted
      ensures raw.attached == old(raw.attached) + {DigitalCallback, AnalogCallback, SysexCallback}
    {
      this.raw := raw;
      this.blobCommand := blobCommand;
      sysCommand := 0;
      dataBuffer := new Byte[MAX_BLOB_LEN];
      sysPosition := 0;
      blobStarted := false;
      blobPosition := 0;
      new;
      raw.Attach(DIGITAL_MESSAGE, Plain);
      raw.Attach(ANALOG_MESSAGE, Plain);
      raw.Attach(I2C_REPLY, SysexKind);
    }

    method BeginSysex(command: Byte) returns (ok: bool)
      requires Valid()
      modifies this
      ensures var e := BeginSysexEffect(old(State()), command); State() == e.state && ok == e.ok
    {
      if blobStarted {
        return false;
      }
      sysCommand := command;
      sysPosition := 0;
      return true;
    }

    method AppendSysex(x: Byte) returns (ok: bool)
      requires Valid()
      modifies dataBuffer, this`sysPosition
      ensures var e := AppendSysexEffect(old(State()), x); State() == e.state && ok == e.ok
    {
      if sysCommand != 0 && sysPosition < MAX_SYSEX_LEN && !blobStarted {
        dataBuffer[sysPosition] := x;
        sysPosition := sysPosition + 1;
        return true;
      }
      return false;
    }

    method EndSysex() returns (ok: bool)
      requires Valid()
      modifies this, raw`output
      ensures var e := EndSysexEffect(old(State()));
              State() == e.state && ok == e.ok && raw.output == old(raw.output) + e.written
    {
      if sysCommand != 0 && !blobStarted {
        raw.SendSysex(sysCommand, sysPosition, dataBuffer);
        sysCommand := 0;
        sysPosition := 0;
        return true;
      }
      return false;
    }

    method BeginBlob() returns (ok: bool)
      requires Valid()
      modifies this
      ensures var e := BeginBlobEffect(old(State())); State() == e.state && ok == e.ok
    {
      if sysCommand != 0 {
        return false;
      }
      blobStarted := true;
      blobPosition := 0;
      return true;
    }

    method EndBlob() returns (ok: bool)
      requires Valid()
      modifies this, raw`output
      ensures var e := EndBlobEffect(old(State()), blobCommand);
              State() == e.state && ok == e.ok && raw.output == old(raw.output) + e.written
    {
      if !blobStarted || sysCommand != 0 {
        return false;
      }
      raw.Write(START_SYSEX);
      raw.Write(blobCommand);
      for i := 0 to blobPosition
        invariant raw.output == old(raw.output) + [START_SYSEX, blobCommand] + dataBuffer[..i]
        modifies raw`output
      {
        raw.Write(dataBuffer[i]);
        assert dataBuffer[..i + 1] == dataBuffer[..i] + [dataBuffer[i]];
      }
      raw.Write(END_SYSEX);
      blobPosition := 0;
      blobStarted := false;
      return true;
    }

    method AppendBlob(x: Byte) returns (ok: bool)
      requires Valid()
      modifies this, dataBuffer, raw`output
      ensures var e := AppendBlobEffect(old(State()), x, blobCommand);
              State() == e.state && ok == e.ok && raw.output == old(raw.output) + e.written
    {
      if !blobStarted || sysCommand != 0 {
        return false;
      }
      ghost var b0 := State();
      if blobPosition >= MAX_BLOB_LEN {
        var _ := EndBlob();
        var _ := BeginBlob();
      }
      ghost var c := State();
      assert c == if b0.blobPosition >= MAX_BLOB_LEN then BeginBlobEffect(EndBlobEffect(b0, blobCommand).state).state else b0;
      dataBuffer[blobPosition] := x % 128;
      blobPosition := blobPosition + 1;
      assert State() == c.(buffer := c.buffer[c.blobPosition := x % 128], blobPosition := c.blobPosition + 1);
      return true;
    }

    /** `setDigitalReadEnabled`: REPORT_DIGITAL_PIN with the port in the low
        nibble, then the low byte of the value. */
    method SetDigitalReadEnabled(portNumber: Byte, portData: int)
      modifies raw`output
      ensures raw.output == old(raw.output) + [CommandByte(REPORT_DIGITAL_PIN, portNumber), LowByte(portData)]
    {
      raw.Write(CommandByte(REPORT_DIGITAL_PIN, portNumber));
      raw.Write(LowByte(portData));
    }

    /** `enableI2c`: an I2C_CONFIG sysex carrying the read delay as one pair. */
    method EnableI2c(delayMicros: int)
      requires 0 <= delayMicros < 0x10000
      modifies raw`output
      ensures raw.output == old(raw.output) + SysexFrame(I2C_CONFIG, [delayMicros])
    {
      raw.StartSysex();
      raw.Write(I2C_CONFIG);
      raw.SendValueAsTwo7bitBytes(delayMicros);
      raw.EndSysex();
    }

    method SendI2cSysex(address: Byte, mask: Byte, reg: Byte, data: seq<Byte>)
      modifies raw`output
      ensures raw.output == old(raw.output) + I2cRequestFrame(address, mask, reg, data)
    {
      raw.StartSysex();
      raw.Write(I2C_REQUEST);
      raw.Write(address);
      raw.Write(mask);
      Singletons(old(raw.output), START_SYSEX, I2C_REQUEST, address, mask);
      ghost var opening: seq<Byte> := [START_SYSEX, I2C_REQUEST, address, mask];
      if reg != 0xFF {
        raw.SendValueAsTwo7bitBytes(reg);
        AppendAssoc(old(raw.output), opening, TwoSevenBit(reg));
      }
      ghost var chars := SignedChars(data);
      ghost var prefix := opening + (if reg != 0xFF then TwoSevenBit(reg) else []);
      ghost var header := raw.output;
      assert header == old(raw.output) + prefix;
      for i := 0 to |data|
        invariant raw.output == header + Encode7(chars[..i])
      {
        raw.SendValueAsTwo7bitBytes(SignedChar(data[i]));
        EncodeStep(header, chars, i);
      }
      raw.EndSysex();
      assert chars[..|data|] == chars;
      AppendAssoc(old(raw.output), prefix, Encode7(chars));
      AppendAssoc(old(raw.output), prefix + Encode7(chars), [END_SYSEX]);
      assert I2cRequestFrame(address, mask, reg, data) == prefix + Encode7(chars) + [END_SYSEX];
    }

    /** `writeI2c`: the narrowed message written to the device, with no
        register; nothing is written for a message whose narrowing the
        source would read past. */
    method WriteI2c(address: Byte, message: seq<char>)
      modifies raw`output
      ensures Narrow(message).None? ==> raw.output == old(raw.output)
      ensures Narrow(message).Some? ==>
              raw.output == old(raw.output) + I2cRequestFrame(address, 0, 0xFF, Narrow(message).value)
    {
      match Narrow(message)
      case None =>
      case Some(bytes) => SendI2cSysex(address, 0, 0xFF, bytes);
    }

    /** `readI2c`: a one-shot or continuous read request for `numBytes` bytes. */
    method ReadI2c(address: Byte, numBytes: nat, reg: Byte, continuous: bool)
      modifies raw`output
      ensures raw.output == old(raw.output) + ReadRequest(address, numBytes, reg, continuous)
    {
      if continuous && reg == 0xFF {
        return;
      }
      SendI2cSysex(address, if continuous then 0x10 else 0x08, reg, [numBytes % 256]);
    }

    /** `stopI2c`: the stop-reading request, with no register and no data. */
    method StopI2c(address: Byte)
      modifies raw`output
      ensures raw.output == old(raw.output) + I2cRequestFrame(address, 0x18, 0xFF, [])
    {
      SendI2cSysex(address, 0x18, 0xFF, []);
    }
  }
}
