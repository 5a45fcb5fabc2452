/** The I2C front end: each TwoWire call is forwarded to the Firmata client
    with the same arguments, except that the read delay is capped at what two
    7-bit bytes can carry and that a continuous read without a register is
    dropped. */
module TwoWire {
  import opened Protocol
  import opened Firmata
  import opened UwpFirmata

  /** `MAX_READ_DELAY_MICROS`: the largest value two 7-bit bytes carry. */
  const MAX_READ_DELAY_MICROS := 0x3FFF

  /** An unsigned 16-bit value (`uint16_t`). */
  type Micros = x: int | 0 <= x < 0x1_0000

  /** A call made on the TwoWire object. */
  datatype WireCall =
    | Enable(delayMicros: Micros)
    | Write(address: Byte, message: seq<char>)
    | Read(address: Byte, numBytes: nat, reg: Byte, continuous: bool)
    | Stop(address: Byte)

  /** A call made on the Firmata client. */
  datatype ClientCall =
    | EnableI2c(delay: int)
    | WriteI2c(address: Byte, message: seq<char>)
    | ReadI2c(address: Byte, numBytes: nat, reg: Byte, continuous: bool)
    | StopI2c(address: Byte)

  /** The read delay `enable` forwards. */
  function ClampDelay(delayMicros: Micros): (r: Micros)
    ensures r <= MAX_READ_DELAY_MICROS
    ensures delayMicros <= MAX_READ_DELAY_MICROS ==> r == delayMicros
    ensures delayMicros > MAX_READ_DELAY_MICROS ==> r == MAX_READ_DELAY_MICROS
  {
    if delayMicros > MAX_READ_DELAY_MICROS then MAX_READ_DELAY_MICROS else delayMicros
  }

  /** What the TwoWire object passes on to the client, if anything: only a
      continuous read without a register is dropped; every other call
      reaches the client with identical arguments, except the delay, which
      is capped. */
  function Forward(call: WireCall): (r: Option<ClientCall>)
    ensures r.None? <==> call.Read? && call.continuous && call.reg == 0xFF
    ensures call.Enable? ==> r == Some(EnableI2c(ClampDelay(call.delayMicros)))
    ensures call.Write? ==> r == Some(WriteI2c(call.address, call.message))
    ensures call.Read? && r.Some? ==> r == Some(ReadI2c(call.address, call.numBytes, call.reg, call.continuous))
    ensures call.Stop? ==> r == Some(StopI2c(call.address))
  {
    match call
    case Enable(d) => Some(EnableI2c(ClampDelay(d)))
    case Write(a, m) => Some(WriteI2c(a, m))
    case Read(a, n, reg, c) => if c && reg == 0xFF then None else Some(ReadI2c(a, n, reg, c))
    case Stop(a) => Some(StopI2c(a))
  }

  /** The bytes the client writes for each call; None for a write whose
      message the client would read past (see `Narrow`). */
  function ClientBytes(call: ClientCall): Option<seq<Byte>>
    requires call.EnableI2c? ==> 0 <= call.delay < 0x1_0000
  {
    match call
    case EnableI2c(d) => Some(SysexFrame(I2C_CONFIG, [d]))
    case WriteI2c(a, m) =>
      (match Narrow(m)
       case None => None
       case Some(bytes) => Some(I2cRequestFrame(a, 0, 0xFF, bytes)))
    case ReadI2c(a, n, reg, c) => Some(ReadRequest(a, n, reg, c))
    case StopI2c(a) => Some(I2cRequestFrame(a, 0x18, 0xFF, []))
  }

  /** The bytes the whole TwoWire call puts on the wire. */
  function WireBytes(call: WireCall): Option<seq<Byte>> {
    match Forward(call)
    case None => Some([])
    case Some(c) => ClientBytes(c)
  }

  // ---------------------------------------------------------------------
  // Laws

  /** A call that is forwarded always puts a request on the wire: with the
      TwoWire guard in front, the client's own guard against a continuous
      read without a register never fires. Only a write of a message with a
      NUL before its end goes wrong, and it does so in the client. */
  lemma ForwardedCallsSend(call: WireCall)
    ensures Forward(call).Some? ==> (WireBytes(call).Some? <==> !(call.Write? && Narrow(call.message).None?))
    ensures Forward(call).Some? && WireBytes(call).Some? ==> WireBytes(call).value != []
  {
    match call
    case Enable(d) =>
    case Write(a, m) =>
    case Read(a, n, reg, c) =>
    case Stop(a) =>
  }

  /** The value a pair of 7-bit bytes carries, low byte first. */
  function PairValue(lo: Byte, hi: Byte): int {
    lo + 128 * hi
  }

  /** The delay sent by `enable` survives the two 7-bit bytes it travels in:
      the I2C_CONFIG sysex carries exactly the capped delay. */
  lemma EnableDelayCarried(delayMicros: Micros)
    ensures WireBytes(Enable(delayMicros)).Some?
    ensures var w := WireBytes(Enable(delayMicros)).value;
      |w| == 5 && w[0] == START_SYSEX && w[1] == I2C_CONFIG && w[4] == END_SYSEX &&
      PairValue(w[2], w[3]) == ClampDelay(delayMicros)
  {
    var d := ClampDelay(delayMicros);
    var w := SysexFrame(I2C_CONFIG, [d]);
    assert w[2..4] == Encode7([d]);
    assert w[2] == d % 128 && w[3] == (d / 128) % 128;
    assert d / 128 < 128;
  }

  /** Without the cap, a delay of 0x4000 would reach the board as 0: its
      top bits do not fit in the pair. */
  lemma UncappedDelayLost()
    ensures TwoSevenBit(0x4000) == TwoSevenBit(0)
    ensures ClampDelay(0x4000) == MAX_READ_DELAY_MICROS
  {
  }
}
