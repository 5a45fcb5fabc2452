/** The older single-class wiring front end: a cache of sixteen digital port
    bytes and of every pin's mode, kept in fixed arrays, with writes sent
    straight to the Firmata client. It has no read path: both reads answer 0.
    Every byte handed to the Firmata client is appended to an output log. */
module LegacyWiring {
  import opened Protocol
  import Firmata
  import opened RemoteDevices

  /** The cache as a value: the port bytes and the pin modes. */
  datatype Legacy = Legacy(ports: seq<bv8>, modes: seq<Byte>)

  predicate LegacyValid(l: Legacy) {
    |l.ports| == MAX_PORTS && |l.modes| == MAX_PINS
  }

  /** What both constructors leave: every port byte 0, every pin OUTPUT. */
  const InitialLegacy := Legacy(seq(MAX_PORTS, _ => 0), seq(MAX_PINS, _ => MODE_OUTPUT))

  /** The new cache and the bytes handed to the Firmata client. */
  datatype Sent = Sent(cache: Legacy, written: seq<Byte>)

  /** `pinMode(pin, mode)`: three raw writes, the cache untouched. */
  function ModeFrame(pin: Byte, mode: Byte): seq<Byte> {
    [SET_PIN_MODE, pin, mode]
  }

  /** `digitalWrite(pin, value)`: nothing unless the cached mode is OUTPUT or
      PWM; a PWM pin is first switched to OUTPUT; then the pin's bit is
      driven, high for a non-zero value. */
  function LegacyDigitalWrite(l: Legacy, pin: Byte, value: Byte): Sent
    requires LegacyValid(l) && pin < MAX_PINS
  {
    var mode := l.modes[pin];
    if mode != MODE_OUTPUT && mode != MODE_PWM then Sent(l, [])
    else
      var switch := if mode == MODE_PWM then ModeFrame(pin, MODE_OUTPUT) else [];
      var d := LegacyDrive(l.(modes := l.modes[pin := MODE_OUTPUT]), pin, value != 0);
      Sent(d.cache, switch + d.written)
  }

  /** `b | mask` to drive high, `b & ~mask` to drive low. */
  function DrivenPort(b: bv8, mask: bv8, high: bool): bv8 {
    if high then SetBits(b, mask) else ClearBits(b, mask)
  }

  /** The tail of `digitalWrite`: the pin's bit of its port byte is driven and
      the port byte is sent. */
  function LegacyDrive(l: Legacy, pin: Byte, high: bool): Sent
    requires |l.ports| == MAX_PORTS && pin < MAX_PINS
  {
    var (port, mask) := PinMap(pin);
    var v := DrivenPort(l.ports[port], mask, high);
    Sent(l.(ports := l.ports[port := v]), Firmata.DigitalFrame(port, ByteValue(v)))
  }

  /** `analogWrite(pin, value)`: nothing unless the cached mode is PWM or
      OUTPUT; an OUTPUT pin is first switched to PWM; then the value is sent. */
  function LegacyAnalogWrite(l: Legacy, pin: Byte, value: Word): Sent
    requires LegacyValid(l) && pin < MAX_PINS
  {
    var mode := l.modes[pin];
    if mode != MODE_PWM && mode != MODE_OUTPUT then Sent(l, [])
    else
      var switch := if mode == MODE_OUTPUT then ModeFrame(pin, MODE_PWM) else [];
      Sent(l.(modes := l.modes[pin := MODE_PWM]), switch + Firmata.AnalogFrame(pin, value))
  }

  // ---------------------------------------------------------------------
  // Laws

  /** Driving a single-bit mask makes that bit follow `high`, keeps every
      other bit, and changes nothing when the bit already follows `high`. */
  lemma DrivenPortLaw(b: bv8, mask: bv8, high: bool)
    requires mask != 0 && mask & (mask - 1) == 0
    ensures var r := DrivenPort(b, mask, high);
      (AnySet(r, mask) <==> high) && ClearBits(r, mask) == ClearBits(b, mask) &&
      ((AnySet(b, mask) <==> high) ==> r == b)
  {
  }

  /** The mask of a pin has exactly one bit set. */
  lemma PinMaskSingle(pin: Byte)
    ensures PinMap(pin).1 != 0 && PinMap(pin).1 & (PinMap(pin).1 - 1) == 0
  {
    SingleBit(pin % 8);
  }

  /** `digitalWrite` on an OUTPUT or PWM pin leaves it in OUTPUT, makes its
      bit follow the value, keeps every other bit, port and mode, and sends
      the new port byte last, preceded by SET_PIN_MODE exactly when the pin
      was in PWM. On any other pin it changes and sends nothing. */
  lemma LegacyDigitalWriteLaw(l: Legacy, pin: Byte, value: Byte)
    requires LegacyValid(l) && pin < MAX_PINS
    ensures var r := LegacyDigitalWrite(l, pin, value);
      var (port, mask) := PinMap(pin);
      var mode := l.modes[pin];
      LegacyValid(r.cache) &&
      (mode != MODE_OUTPUT && mode != MODE_PWM ==> r == Sent(l, [])) &&
      (mode == MODE_OUTPUT || mode == MODE_PWM ==>
        r.cache.modes == l.modes[pin := MODE_OUTPUT] &&
        (AnySet(r.cache.ports[port], mask) <==> value != 0) &&
        ClearBits(r.cache.ports[port], mask) == ClearBits(l.ports[port], mask) &&
        (forall q :: 0 <= q < MAX_PORTS && q != port ==> r.cache.ports[q] == l.ports[q]) &&
        r.written == (if mode == MODE_PWM then ModeFrame(pin, MODE_OUTPUT) else []) +
          Firmata.DigitalFrame(port, ByteValue(r.cache.ports[port])))
  {
    var (port, mask) := PinMap(pin);
    PinMaskSingle(pin);
    DrivenPortLaw(l.ports[port], mask, value != 0);
  }

  /** Writing the same value twice leaves the cache as writing it once, and
      the second write sends only the port byte. */
  lemma LegacyDigitalWriteTwice(l: Legacy, pin: Byte, value: Byte)
    requires LegacyValid(l) && pin < MAX_PINS
    requires l.modes[pin] == MODE_OUTPUT || l.modes[pin] == MODE_PWM
    ensures var once := LegacyDigitalWrite(l, pin, value);
      LegacyValid(once.cache) &&
      var twice := LegacyDigitalWrite(once.cache, pin, value);
      twice.cache == once.cache &&
      twice.written == Firmata.DigitalFrame(PinMap(pin).0, ByteValue(once.cache.ports[PinMap(pin).0]))
  {
    var once := LegacyDigitalWrite(l, pin, value);
    LegacyDigitalWriteLaw(l, pin, value);
    assert once.cache.modes[pin := MODE_OUTPUT] == once.cache.modes;
    DriveSettled(once.cache, pin, value != 0);
  }

  /** Driving a pin whose bit already follows `high` leaves the cache as it
      was and sends the unchanged port byte. */
  lemma DriveSettled(l: Legacy, pin: Byte, high: bool)
    requires |l.ports| == MAX_PORTS && pin < MAX_PINS
    requires AnySet(l.ports[PinMap(pin).0], PinMap(pin).1) <==> high
    ensures LegacyDrive(l, pin, high) == Sent(l, Firmata.DigitalFrame(PinMap(pin).0, ByteValue(l.ports[PinMap(pin).0])))
  {
    var (port, mask) := PinMap(pin);
    PinMaskSingle(pin);
    DrivenPortLaw(l.ports[port], mask, high);
    assert l.ports[port := l.ports[port]] == l.ports;
  }

  /** `analogWrite` on a PWM or OUTPUT pin leaves it in PWM and sends the
      value, preceded by SET_PIN_MODE exactly when the pin was in OUTPUT;
      the port bytes never change. On any other pin nothing happens. */
  lemma LegacyAnalogWriteLaw(l: Legacy, pin: Byte, value: Word)
    requires LegacyValid(l) && pin < MAX_PINS
    ensures var r := LegacyAnalogWrite(l, pin, value);
      var mode := l.modes[pin];
      LegacyValid(r.cache) && r.cache.ports == l.ports &&
      (mode != MODE_PWM && mode != MODE_OUTPUT ==> r == Sent(l, [])) &&
      (mode == MODE_PWM || mode == MODE_OUTPUT ==>
        r.cache.modes == l.modes[pin := MODE_PWM] &&
        |r.written| >= 3 && r.written[|r.written| - 3..] == Firmata.AnalogFrame(pin, value) &&
        (mode == MODE_OUTPUT <==> r.written[..|r.written| - 3] == ModeFrame(pin, MODE_PWM)) &&
        (mode == MODE_PWM <==> |r.written| == 3))
  {
    var switch := if l.modes[pin] == MODE_OUTPUT then ModeFrame(pin, MODE_PWM) else [];
    var frame := Firmata.AnalogFrame(pin, value);
    assert (switch + frame)[|switch|..] == frame;
    assert (switch + frame)[..|switch|] == switch;
  }

  // ---------------------------------------------------------------------
  // The class

  class RemoteWiring {
    const digitalPort: array<bv8>
    const pinModes: array<Byte>
    /** Bytes handed to the Firmata client, in order. */
    var output: seq<Byte>

    ghost predicate Valid()
      reads this
    {
      digitalPort.Length == MAX_PORTS && pinModes.Length == MAX_PINS
    }

    ghost function State(): Legacy
      reads this, digitalPort, pinModes
      requires Valid()
    {
      Legacy(digitalPort[..], pinModes[..])
    }

    /** Either constructor: the port bytes are cleared and every pin is
        cached as OUTPUT. */
    constructor ()
      ensures Valid() && State() == InitialLegacy && output == []
    {
      digitalPort := new bv8[MAX_PORTS];
      pinModes := new Byte[MAX_PINS];
      output := [];
      new;
      for i := 0 to MAX_PORTS
        modifies digitalPort
        invariant forall q :: 0 <= q < i ==> digitalPort[q] == 0
      {
        digitalPort[i] := 0;
      }
      for i := 0 to MAX_PINS
        modifies pinModes
        invariant forall q :: 0 <= q < i ==> pinModes[q] == MODE_OUTPUT
      {
        pinModes[i] := MODE_OUTPUT;
      }
      assert digitalPort[..] == InitialLegacy.ports;
      assert pinModes[..] == InitialLegacy.modes;
    }

    /** `analogRead`: always 0. */
    method AnalogRead(pin: Byte) returns (value: Word)
      ensures value == 0
    {
      value := 0;
    }

    /** `digitalRead`: always 0. */
    method DigitalRead(pin: Byte) returns (value: Word)
      ensures value == 0
    {
      value := 0;
    }

    /** `pinMode(pin, mode)`. */
    method PinMode(pin: Byte, mode: Byte)
      modifies this`output
      ensures output == old(output) + ModeFrame(pin, mode)
    {
      output := output + [SET_PIN_MODE];
      output := output + [pin];
      output := output + [mode];
    }

    /** `analogWrite(pin, value)`. */
    method AnalogWrite(pin: Byte, value: Word)
      requires Valid() && pin < MAX_PINS
      modifies this`output, pinModes
      ensures Valid()
      ensures var r := LegacyAnalogWrite(old(State()), pin, value);
        State() == r.cache && output == old(output) + r.written
    {
      if pinModes[pin] != MODE_PWM {
        if pinModes[pin] == MODE_OUTPUT {
          PinMode(pin, MODE_PWM);
          pinModes[pin] := MODE_PWM;
        } else {
          return;
        }
      }
      output := output + Firmata.AnalogFrame(pin, value);
    }

    /** `digitalWrite(pin, value)`. */
    method DigitalWrite(pin: Byte, value: Byte)
      requires Valid() && pin < MAX_PINS
      modifies this`output, digitalPort, pinModes
      ensures Valid()
      ensures var r := LegacyDigitalWrite(old(State()), pin, value);
        State() == r.cache && output == old(output) + r.written
    {
      var ready := LeavePwm(pin);
      if ready {
        ghost var l := old(State());
        assert State() == l.(modes := l.modes[pin := MODE_OUTPUT]);
        DrivePort(pin, value != 0);
      }
    }

    /** The mode step of `digitalWrite`: an OUTPUT pin is ready, a PWM pin is
        switched to OUTPUT and recached, any other pin is left alone. */
    method LeavePwm(pin: Byte) returns (ready: bool)
      requires Valid() && pin < MAX_PINS
      modifies this`output, pinModes
      ensures Valid()
      ensures ready <==> old(pinModes[pin]) == MODE_OUTPUT || old(pinModes[pin]) == MODE_PWM
      ensures pinModes[..] == if ready then old(pinModes[..])[pin := MODE_OUTPUT] else old(pinModes[..])
      ensures output == old(output) + if old(pinModes[pin]) == MODE_PWM then ModeFrame(pin, MODE_OUTPUT) else []
    {
      ready := true;
      if pinModes[pin] != MODE_OUTPUT {
        if pinModes[pin] == MODE_PWM {
          PinMode(pin, MODE_OUTPUT);
          pinModes[pin] := MODE_OUTPUT;
        } else {
          ready := false;
        }
      }
    }

    /** The tail of `digitalWrite`. */
    method DrivePort(pin: Byte, high: bool)
      requires Valid() && pin < MAX_PINS
      modifies this`output, digitalPort
      ensures Valid()
      ensures var d := LegacyDrive(old(State()), pin, high);
        State() == d.cache && output == old(output) + d.written
    {
      var port := pin / 8;
      var mask := Masks[pin % 8];
      if high {
        digitalPort[port] := SetBits(digitalPort[port], mask);
      } else {
        digitalPort[port] := ClearBits(digitalPort[port], mask);
      }
      output := output + Firmata.DigitalFrame(port, ByteValue(digitalPort[port]));
    }
  }
}
