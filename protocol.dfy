/** Wire-level vocabulary of the Firmata 2.4 protocol as this repository uses it:
    the command and sysex codes, the pin-mode codes of the remote device, the
    PinCapability bits of the hardware profile, and the byte arithmetic that
    every other module shares. */
module Protocol {

  /** An unsigned 8-bit value as it travels on the wire or sits in a `uint8_t`. */
  type Byte = x: int | 0 <= x < 256

  // Command codes (the `Command` enum).
  const ANALOG_MESSAGE: Byte := 0xE0
  const DIGITAL_MESSAGE: Byte := 0x90
  const REPORT_ANALOG_PIN: Byte := 0xC0
  const REPORT_DIGITAL_PIN: Byte := 0xD0
  const SET_PIN_MODE: Byte := 0xF4
  const START_SYSEX: Byte := 0xF0
  const END_SYSEX: Byte := 0xF7
  const PROTOCOL_VERSION: Byte := 0xF9
  const SYSTEM_RESET: Byte := 0xFF

  // Sysex sub-command codes (the `SysexCommand` enum) that the model uses.
  const STRING_DATA: Byte := 0x71
  const I2C_REQUEST: Byte := 0x76
  const I2C_REPLY: Byte := 0x77
  const I2C_CONFIG: Byte := 0x78
  const CAPABILITY_QUERY: Byte := 0x6B
  const CAPABILITY_RESPONSE: Byte := 0x6C
  const REPORT_FIRMWARE: Byte := 0x79

  // Pin-mode codes of the remote device (the `PinMode` enum).
  const MODE_INPUT: Byte := 0x00
  const MODE_OUTPUT: Byte := 0x01
  const MODE_ANALOG: Byte := 0x02
  const MODE_PWM: Byte := 0x03
  const MODE_SERVO: Byte := 0x04
  const MODE_I2C: Byte := 0x06
  const MODE_IGNORED: Byte := 0x7F

  /** Marker that closes one pin's group in a capability response. */
  const END_OF_PIN: Byte := 0x7F

  /** The mode codes that the `PinMode` enum names (PULLUP is not among them). */
  predicate IsNamedMode(m: int) {
    m == MODE_INPUT || m == MODE_OUTPUT || m == MODE_ANALOG || m == MODE_PWM ||
    m == MODE_SERVO || m == MODE_I2C || m == MODE_IGNORED
  }

  // PinCapability bits of the hardware profile.
  const CAP_INPUT: bv8 := 0x01
  const CAP_INPUT_PULLUP: bv8 := 0x02
  const CAP_OUTPUT: bv8 := 0x04
  const CAP_ANALOG: bv8 := 0x08
  const CAP_PWM: bv8 := 0x10
  const CAP_SERVO: bv8 := 0x20
  const CAP_I2C: bv8 := 0x40

  /** The seven capabilities, in declaration order. */
  const Capabilities: seq<bv8> := [CAP_INPUT, CAP_INPUT_PULLUP, CAP_OUTPUT, CAP_ANALOG, CAP_PWM, CAP_SERVO, CAP_I2C]

  /** `cmd | (port & 0x0F)` for a command whose low nibble is zero: the port is
      confined to the low nibble, and both halves can be read back. */
  function CommandByte(cmd: Byte, port: int): (r: Byte)
    requires cmd % 16 == 0
    ensures r / 16 * 16 == cmd && r % 16 == port % 16
  {
    cmd + port % 16
  }

  /** `b & 0xF0`: the command family of a command byte below 0xF0. */
  function HighNibble(b: Byte): Byte { b / 16 * 16 }

  /** `b & 0x0F`: the channel or port carried by a command byte below 0xF0. */
  function LowNibble(b: Byte): Byte { b % 16 }

  /** The commands that carry a channel have a zero low nibble, so OR-ing in a
      port 0..15 is injective and both halves are recovered by masking. */
  lemma ChannelCommandRecoverable(cmd: Byte, port: int, cmd': Byte, port': int)
    requires cmd in {DIGITAL_MESSAGE, ANALOG_MESSAGE, REPORT_ANALOG_PIN, REPORT_DIGITAL_PIN}
    requires cmd' in {DIGITAL_MESSAGE, ANALOG_MESSAGE, REPORT_ANALOG_PIN, REPORT_DIGITAL_PIN}
    requires 0 <= port < 16 && 0 <= port' < 16
    ensures HighNibble(CommandByte(cmd, port)) == cmd && LowNibble(CommandByte(cmd, port)) == port
    ensures CommandByte(cmd, port) == CommandByte(cmd', port') <==> cmd == cmd' && port == port'
  {
    var b, b' := CommandByte(cmd, port), CommandByte(cmd', port');
    if b == b' {
      assert cmd == HighNibble(b) == HighNibble(b') == cmd';
    }
  }

  /** `sendValueAsTwo7bitBytes`: the low seven bits, then bits 7..13. Dafny's
      `%` and `/` are Euclidean, which for every int (negative ones included)
      agree with two's-complement `& 0x7F` and arithmetic `>> 7`. */
  function TwoSevenBit(v: int): (r: seq<Byte>)
    ensures |r| == 2 && r[0] < 128 && r[1] < 128
    ensures 0 <= v < 16384 ==> r[1] as int * 128 + r[0] == v
  {
    [v % 128, (v / 128) % 128]
  }

  /** A value that may be absent (a null buffer, an unmapped command). */
  datatype Option<T> = None | Some(value: T)

  /** `static_cast<byte>` of an int: the low eight bits. */
  function LowByte(v: int): (r: Byte)
    ensures 0 <= v < 256 ==> r == v
  {
    v % 256
  }

  /** Concatenation regroups freely. */
  lemma AppendAssoc<T>(a: seq<T>, b: seq<T>, c: seq<T>)
    ensures (a + b) + c == a + (b + c)
  {
  }

  /** A value already below 256 is its own byte. */
  lemma ByteMod(n: int)
    requires 0 <= n < 256
    ensures n % 256 == n
  {
  }
}
