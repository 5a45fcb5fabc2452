/** The remote device's pin-state cache: per-port digital values and
    input subscriptions, the analog readings and the cached mode of every pin,
    kept in fixed arrays and updated as the host drives pins and as the board
    reports values. Every byte the device hands to Firmata is appended to an
    output log. */
module RemoteDevices {
  import opened Protocol
  import Firmata
  import opened CapabilityScan

  const MAX_PORTS := 16
  const MAX_PINS := 128
  const ANALOG_PINS := 6

  /** An unsigned 16-bit value (`uint16_t`). */
  type Word = x: int | 0 <= x < 0x1_0000

  const NO_VALUE: Word := 0xFFFF

  /** `1 << k` for the eight bit positions of a byte. */
  const Masks: seq<bv8> := [0x01, 0x02, 0x04, 0x08, 0x10, 0x20, 0x40, 0x80]

  /** `(b & mask) > 0`: some bit of mask is set in b. */
  predicate AnySet(b: bv8, mask: bv8) { b & mask != 0 }

  /** Bit k of a byte, `(b >> k) & 0x01`. */
  predicate Bit(b: bv8, k: nat)
    requires k < 8
  {
    AnySet(b, Masks[k])
  }

  function Pow2(n: nat): (r: nat)
    ensures r >= 1
  {
    if n == 0 then 1 else 2 * Pow2(n - 1)
  }

  /** The number bits k to 7 of a port byte stand for, bit k counting 1. */
  function BitsValue(b: bv8, k: nat): (r: nat)
    requires k <= 8
    ensures r < Pow2(8 - k)
    decreases 8 - k
  {
    if k == 8 then 0 else (if Bit(b, k) then 1 else 0) + 2 * BitsValue(b, k + 1)
  }

  /** The number a port byte stands for. */
  function ByteValue(b: bv8): Byte {
    assert Pow2(8) == 256;
    BitsValue(b, 0)
  }

  /** Bits k to 7 of a port byte holding n, n's lowest bit landing on bit k. */
  function BitsOf(n: nat, k: nat): bv8
    requires k <= 8
    decreases 8 - k
  {
    if k == 8 then 0 else (if n % 2 == 1 then Masks[k] else 0) | BitsOf(n / 2, k + 1)
  }

  /** The port byte holding the low eight bits of n (`(uint8_t)n`). */
  function PortByte(n: int): bv8 {
    BitsOf(n % 256, 0)
  }

  /** `getPinMap`: the port holding the pin and the pin's bit in that port. */
  function PinMap(pin: Byte): (r: (int, bv8))
    ensures 0 <= r.0 < 32 && r.1 != 0
  {
    (pin / 8, Masks[pin % 8])
  }

  /** The mask has exactly one bit set, and that bit together with the port
      names the pin: port * 8 + bit index == pin. */
  lemma PinMapLaw(pin: Byte)
    ensures PinMap(pin).1 != 0 && PinMap(pin).1 & (PinMap(pin).1 - 1) == 0
    ensures forall k :: 0 <= k < 8 ==> (Bit(PinMap(pin).1, k) <==> PinMap(pin).0 * 8 + k == pin)
  {
    var k0 := pin % 8;
    assert pin == PinMap(pin).0 * 8 + k0;
    if k0 == 0 {} else if k0 == 1 {} else if k0 == 2 {} else if k0 == 3 {}
    else if k0 == 4 {} else if k0 == 5 {} else if k0 == 6 {} else {}
  }

  // ---------------------------------------------------------------------
  // The cache as a value, and what each operation does to it

  datatype Cache = Cache(ports: seq<bv8>, subscribed: seq<bv8>, analog: seq<Word>, modes: seq<Byte>)

  predicate CacheValid(c: Cache) {
    |c.ports| == MAX_PORTS && |c.subscribed| == MAX_PORTS && |c.analog| == ANALOG_PINS && |c.modes| == MAX_PINS
  }

  /** The new cache and the bytes written to Firmata. */
  datatype Step = Step(cache: Cache, written: seq<Byte>)

  /** `initialize`: ports, subscriptions and analog readings cleared, every
      pin in OUTPUT mode. */
  const InitialCache := Cache(seq(MAX_PORTS, _ => 0), seq(MAX_PORTS, _ => 0), seq(ANALOG_PINS, _ => 0), seq(MAX_PINS, _ => MODE_OUTPUT))

  /** `b | mask`: the bits of mask set in b. */
  function SetBits(b: bv8, mask: bv8): bv8 { b | mask }

  /** `b & ~mask`: the bits of mask cleared in b. */
  function ClearBits(b: bv8, mask: bv8): bv8 { b & !mask }

  /** The subscription byte after setting a pin's mode: entering INPUT sets
      the pin's bit, leaving INPUT clears it, anything else keeps it. */
  function Subscription(sub: bv8, mask: bv8, oldMode: Byte, mode: Byte): bv8 {
    if mode == MODE_INPUT then SetBits(sub, mask)
    else if oldMode == MODE_INPUT then ClearBits(sub, mask)
    else sub
  }

  /** `pinMode(pin, mode)`: the bytes sent under the Firmata lock, then the
      cache updates that follow them. */
  function PinModeEffect(c: Cache, pin: Byte, mode: Byte): Step
    requires CacheValid(c) && pin < MAX_PINS
  {
    var s := SendModeEffect(c, pin, mode);
    Step(SettleMode(s.cache, pin, mode), s.written)
  }

  /** The part of `pinMode` done under the Firmata lock: SET_PIN_MODE is sent,
      and a pin entering or leaving INPUT has its port's subscription updated
      and reported. */
  function SendModeEffect(c: Cache, pin: Byte, mode: Byte): Step
    requires CacheValid(c) && pin < MAX_PINS
  {
    var (port, mask) := PinMap(pin);
    var oldMode := c.modes[pin];
    var sub := Subscription(c.subscribed[port], mask, oldMode, mode);
    var resubscribe := mode == MODE_INPUT || oldMode == MODE_INPUT;
    var subscribed := if resubscribe then c.subscribed[port := sub] else c.subscribed;
    var report := if resubscribe then [CommandByte(REPORT_DIGITAL_PIN, port), ByteValue(sub)] else [];
    Step(c.(subscribed := subscribed), [SET_PIN_MODE, pin, mode] + report)
  }

  /** The end of `pinMode`: a pin entering OUTPUT has its cached bit cleared,
      and the new mode is recorded. */
  function SettleMode(c: Cache, pin: Byte, mode: Byte): Cache
    requires CacheValid(c) && pin < MAX_PINS
  {
    var (port, mask) := PinMap(pin);
    var ports := if mode == MODE_OUTPUT && c.modes[pin] != MODE_OUTPUT
      then c.ports[port := ClearBits(c.ports[port], mask)] else c.ports;
    c.(ports := ports, modes := c.modes[pin := mode])
  }

  /** `digitalWrite(pin, state)`. */
  function DigitalWriteEffect(c: Cache, pin: Byte, high: bool): Step
    requires CacheValid(c) && pin < MAX_PINS
  {
    var (port, mask) := PinMap(pin);
    var mode := c.modes[pin];
    if mode != MODE_OUTPUT && mode != MODE_PWM then Step(c, [])
    else
      var s := if mode == MODE_PWM then PinModeEffect(c, pin, MODE_OUTPUT) else Step(c, []);
      var d := DriveBitEffect(s.cache, pin, high);
      Step(d.cache, s.written + d.written)
  }

  /** The tail of `digitalWrite`: set or clear the pin's bit in its port cache and send the whole port. */
  function DriveBitEffect(c: Cache, pin: Byte, high: bool): Step
    requires |c.ports| == MAX_PORTS && pin < MAX_PINS
  {
    var (port, mask) := PinMap(pin);
    var v := if high then SetBits(c.ports[port], mask) else ClearBits(c.ports[port], mask);
    Step(c.(ports := c.ports[port := v]), Firmata.DigitalFrame(port, ByteValue(v)))
  }

  /** `digitalRead(pin)`: an ANALOG pin is first switched to INPUT. */
  function DigitalReadEffect(c: Cache, pin: Byte): (Step, bool)
    requires CacheValid(c) && pin < MAX_PINS
  {
    var (port, mask) := PinMap(pin);
    var s := if c.modes[pin] == MODE_ANALOG then PinModeEffect(c, pin, MODE_INPUT) else Step(c, []);
    (s, AnySet(s.cache.ports[port], mask))
  }

  /** `analogWrite(pin, value)`: an OUTPUT pin is first switched to PWM. */
  function AnalogWriteEffect(c: Cache, pin: Byte, value: Word): Step
    requires CacheValid(c) && pin < MAX_PINS
  {
    var mode := c.modes[pin];
    if mode != MODE_PWM && mode != MODE_OUTPUT then Step(c, [])
    else
      var s := if mode == MODE_OUTPUT then PinModeEffect(c, pin, MODE_PWM) else Step(c, []);
      Step(s.cache, s.written + Firmata.AnalogFrame(pin, value))
  }

  /** The cache slot an analog name refers to: its number plus the analog
      offset, truncated to a byte. */
  function AnalogSlot(parsed: Byte, offset: Byte): Byte {
    (parsed + offset) % 256
  }

  /** What `analogRead` needs to stay inside the fixed arrays: the slot is a
      cached pin, and a reading is only fetched from the six analog entries. */
  predicate AnalogNameInRange(s: Option<string>, offset: Byte, numAnalog: Byte) {
    var parsed := ParsePin(s);
    parsed != 255 ==> AnalogSlot(parsed, offset) < MAX_PINS && (parsed < numAnalog ==> parsed < ANALOG_PINS)
  }

  /** `analogRead(name)`: an INPUT pin is first switched to ANALOG; a pin in
      any other non-ANALOG mode, an unparsable name and a name beyond the
      analog count read as 0xFFFF. */
  function AnalogReadEffect(c: Cache, offset: Byte, numAnalog: Byte, s: Option<string>): (Step, Word)
    requires CacheValid(c) && AnalogNameInRange(s, offset, numAnalog)
  {
    var parsed := ParsePin(s);
    if parsed == 255 then (Step(c, []), NO_VALUE)
    else
      var pin := AnalogSlot(parsed, offset);
      var mode := c.modes[pin];
      if mode != MODE_ANALOG && mode != MODE_INPUT then (Step(c, []), NO_VALUE)
      else
        var st := if mode == MODE_INPUT then PinModeEffect(c, pin, MODE_ANALOG) else Step(c, []);
        (st, if parsed < numAnalog then st.cache.analog[parsed] else NO_VALUE)
  }

  /** What the name overloads need to stay inside the fixed arrays: a name
      that parses refers to a cached pin. */
  predicate NamedSlotInRange(s: Option<string>, offset: Byte) {
    var parsed := ParsePin(s);
    parsed != 255 ==> AnalogSlot(parsed, offset) < MAX_PINS
  }

  /** `getPinMode(name)`: IGNORED for a name that does not parse. */
  function NamedPinMode(c: Cache, offset: Byte, s: Option<string>): Byte
    requires CacheValid(c) && NamedSlotInRange(s, offset)
  {
    var parsed := ParsePin(s);
    if parsed == 255 then MODE_IGNORED else c.modes[AnalogSlot(parsed, offset)]
  }

  /** `pinMode(name, mode)`: nothing for a name that does not parse. */
  function NamedPinModeEffect(c: Cache, offset: Byte, s: Option<string>, mode: Byte): Step
    requires CacheValid(c) && NamedSlotInRange(s, offset)
  {
    var parsed := ParsePin(s);
    if parsed == 255 then Step(c, []) else PinModeEffect(c, AnalogSlot(parsed, offset), mode)
  }

  /** `onDigitalReport`: the reported byte, with the unsubscribed (output)
      pins' cached HIGH bits ORed back in. */
  function MergedPort(reported: int, cached: bv8, subscribed: bv8): bv8 {
    SetBits(PortByte(reported), ClearBits(cached, subscribed))
  }

  datatype PinEvent = DigitalPinUpdated(pin: int, high: bool) | AnalogPinUpdated(pin: int, value: Word)

  /** One DigitalPinUpdated per set bit of `changed` from bit i on, in bit
      order, carrying the pin's new state from `v`. */
  function Changed(port: int, changed: bv8, v: bv8, i: nat): seq<PinEvent>
    requires i <= 8
    decreases 8 - i
  {
    if i == 8 then []
    else (if Bit(changed, i) then [DigitalPinUpdated(port * 8 + i, Bit(v, i))] else []) + Changed(port, changed, v, i + 1)
  }

  // ---------------------------------------------------------------------
  // Laws of the cache operations

  /** The subscription rule for a pin's mask: its bit is set after entering
      INPUT, cleared after leaving it, kept otherwise; the other bits never
      change. */
  lemma SubscriptionLaw(sub: bv8, mask: bv8, oldMode: Byte, mode: Byte)
    requires mask != 0
    ensures var r := Subscription(sub, mask, oldMode, mode);
      (AnySet(r, mask) <==> mode == MODE_INPUT || (oldMode != MODE_INPUT && AnySet(sub, mask))) &&
      ClearBits(r, mask) == ClearBits(sub, mask)
  {
    MaskBits(sub, mask);
  }

  /** After `pinMode(p, m)` the cached mode of p is m and no other pin's
      mode changes; entering OUTPUT from another mode clears p's cached bit;
      only p's port can change, in its value and its subscription. */
  lemma PinModeLaw(c: Cache, pin: Byte, mode: Byte)
    requires CacheValid(c) && pin < MAX_PINS
    ensures var s := PinModeEffect(c, pin, mode);
      var (port, mask) := PinMap(pin);
      CacheValid(s.cache) && s.cache.modes[pin] == mode && s.cache.analog == c.analog &&
      (forall q :: 0 <= q < MAX_PINS && q != pin ==> s.cache.modes[q] == c.modes[q]) &&
      (forall q :: 0 <= q < MAX_PORTS && q != port ==> s.cache.ports[q] == c.ports[q] && s.cache.subscribed[q] == c.subscribed[q]) &&
      (mode == MODE_OUTPUT && c.modes[pin] != MODE_OUTPUT ==> !AnySet(s.cache.ports[port], mask))
  {
    var s := SendModeEffect(c, pin, mode);
    SendModeKeeps(c, pin, mode);
    SettleModeLaw(s.cache, pin, mode);
  }

  /** The locked part of `pinMode` changes only the subscription of the
      pin's port. */
  lemma SendModeKeeps(c: Cache, pin: Byte, mode: Byte)
    requires CacheValid(c) && pin < MAX_PINS
    ensures var d := SendModeEffect(c, pin, mode).cache;
      CacheValid(d) && d.ports == c.ports && d.modes == c.modes && d.analog == c.analog &&
      (forall q :: 0 <= q < MAX_PORTS && q != PinMap(pin).0 ==> d.subscribed[q] == c.subscribed[q])
  {
  }

  /** The end of `pinMode` records the mode, changes only the pin's port
      value, and clears the pin's bit when OUTPUT is entered. */
  lemma SettleModeLaw(c: Cache, pin: Byte, mode: Byte)
    requires CacheValid(c) && pin < MAX_PINS
    ensures var d := SettleMode(c, pin, mode);
      var (port, mask) := PinMap(pin);
      CacheValid(d) && d.modes == c.modes[pin := mode] && d.analog == c.analog && d.subscribed == c.subscribed &&
      (forall q :: 0 <= q < MAX_PORTS && q != port ==> d.ports[q] == c.ports[q]) &&
      (mode == MODE_OUTPUT && c.modes[pin] != MODE_OUTPUT ==> !AnySet(d.ports[port], mask))
  {
    var (port, mask) := PinMap(pin);
    MaskBits(c.ports[port], mask);
  }

  /** `pinMode` always sends SET_PIN_MODE, pin, mode; when INPUT is entered
      or left, and only then, it follows with REPORT_DIGITAL_PIN | port and
      the port's new subscription byte. */
  lemma PinModeSent(c: Cache, pin: Byte, mode: Byte)
    requires CacheValid(c) && pin < MAX_PINS
    ensures var s := PinModeEffect(c, pin, mode);
      var port := PinMap(pin).0;
      s.written[..3] == [SET_PIN_MODE, pin, mode] &&
      (mode != MODE_INPUT && c.modes[pin] != MODE_INPUT <==> s.written == [SET_PIN_MODE, pin, mode]) &&
      (mode == MODE_INPUT || c.modes[pin] == MODE_INPUT ==>
        s.written[3..] == [CommandByte(REPORT_DIGITAL_PIN, port), ByteValue(s.cache.subscribed[port])])
  {
  }

  /** The cache d is c after driving pin high or low: the pin is in OUTPUT
      mode and only its bit of its port differs, set for HIGH and cleared
      for LOW. */
  predicate WritesPinBit(c: Cache, d: Cache, pin: Byte, high: bool)
    requires CacheValid(c) && pin < MAX_PINS
  {
    var (port, mask) := PinMap(pin);
    CacheValid(d) && d.modes[pin] == MODE_OUTPUT &&
    (AnySet(d.ports[port], mask) <==> high) &&
    ClearBits(d.ports[port], mask) == ClearBits(c.ports[port], mask) &&
    (forall q :: 0 <= q < MAX_PORTS && q != port ==> d.ports[q] == c.ports[q])
  }

  /** `digitalWrite` on a pin whose mode is neither OUTPUT nor PWM does
      nothing; otherwise it drives the pin's bit and leaves the pin in
      OUTPUT. */
  lemma DigitalWriteLaw(c: Cache, pin: Byte, high: bool)
    requires CacheValid(c) && pin < MAX_PINS
    ensures var s := DigitalWriteEffect(c, pin, high);
      if c.modes[pin] != MODE_OUTPUT && c.modes[pin] != MODE_PWM then s == Step(c, [])
      else WritesPinBit(c, s.cache, pin, high)
  {
    if c.modes[pin] == MODE_OUTPUT {
      DigitalWriteOutput(c, pin, high);
    } else if c.modes[pin] == MODE_PWM {
      DigitalWritePwm(c, pin, high);
    }
  }

  lemma DigitalWriteOutput(c: Cache, pin: Byte, high: bool)
    requires CacheValid(c) && pin < MAX_PINS && c.modes[pin] == MODE_OUTPUT
    ensures WritesPinBit(c, DigitalWriteEffect(c, pin, high).cache, pin, high)
  {
    MaskBits(c.ports[PinMap(pin).0], PinMap(pin).1);
  }

  lemma DigitalWritePwm(c: Cache, pin: Byte, high: bool)
    requires CacheValid(c) && pin < MAX_PINS && c.modes[pin] == MODE_PWM
    ensures WritesPinBit(c, DigitalWriteEffect(c, pin, high).cache, pin, high)
  {
    var (port, mask) := PinMap(pin);
    var s := PinModeEffect(c, pin, MODE_OUTPUT);
    assert s.cache.ports[port] == ClearBits(c.ports[port], mask);
    MaskBits(c.ports[port], mask);
    MaskBits(s.cache.ports[port], mask);
  }

  /** What `digitalWrite` sends: the whole new port byte, last; a pin already
      in OUTPUT sends nothing else. */
  lemma DigitalWriteSent(c: Cache, pin: Byte, high: bool)
    requires CacheValid(c) && pin < MAX_PINS
    requires c.modes[pin] == MODE_OUTPUT || c.modes[pin] == MODE_PWM
    ensures var s := DigitalWriteEffect(c, pin, high);
      var port := PinMap(pin).0;
      |s.written| >= 3 && s.written[|s.written| - 3..] == Firmata.DigitalFrame(port, ByteValue(s.cache.ports[port])) &&
      (c.modes[pin] == MODE_OUTPUT ==> |s.written| == 3)
  {
    var m := if c.modes[pin] == MODE_PWM then PinModeEffect(c, pin, MODE_OUTPUT) else Step(c, []);
    if c.modes[pin] == MODE_PWM {
      PinModeLaw(c, pin, MODE_OUTPUT);
    }
    var d := DriveBitEffect(m.cache, pin, high);
    var port := PinMap(pin).0;
    assert DigitalWriteEffect(c, pin, high) == Step(d.cache, m.written + d.written);
    assert d.written == Firmata.DigitalFrame(port, ByteValue(d.cache.ports[port]));
    assert (m.written + d.written)[|m.written|..] == d.written;
  }

  /** Setting the bits of a non-empty mask sets them, clearing clears them,
      and neither touches the bits outside the mask. */
  lemma MaskBits(b: bv8, mask: bv8)
    requires mask != 0
    ensures AnySet(SetBits(b, mask), mask) && !AnySet(ClearBits(b, mask), mask)
    ensures ClearBits(SetBits(b, mask), mask) == ClearBits(b, mask)
    ensures ClearBits(ClearBits(b, mask), mask) == ClearBits(b, mask)
  {
  }

  /** `digitalRead` answers the cached bit of the pin; only an ANALOG pin
      changes mode (to INPUT), and no port value changes. */
  lemma DigitalReadLaw(c: Cache, pin: Byte)
    requires CacheValid(c) && pin < MAX_PINS
    ensures var (s, high) := DigitalReadEffect(c, pin);
      var (port, mask) := PinMap(pin);
      high == AnySet(c.ports[port], mask) && s.cache.ports == c.ports &&
      (c.modes[pin] == MODE_ANALOG <==> s.written != []) &&
      (c.modes[pin] == MODE_ANALOG ==> s.cache.modes[pin] == MODE_INPUT)
  {
  }

  /** `analogWrite` does nothing unless the pin is PWM or OUTPUT; an OUTPUT
      pin is first switched to PWM; the value goes out as one analog
      message on the pin's channel. */
  lemma AnalogWriteLaw(c: Cache, pin: Byte, value: Word)
    requires CacheValid(c) && pin < MAX_PINS
    ensures var s := AnalogWriteEffect(c, pin, value);
      if c.modes[pin] != MODE_PWM && c.modes[pin] != MODE_OUTPUT then s == Step(c, [])
      else
        s.cache.modes[pin] == MODE_PWM && s.cache.ports == c.ports &&
        |s.written| >= 3 && s.written[|s.written| - 3..] == Firmata.AnalogFrame(pin, value) &&
        (c.modes[pin] == MODE_PWM ==> s.written == Firmata.AnalogFrame(pin, value))
  {
  }

  /** `analogRead` answers the cached reading of the named analog pin when
      that pin is ANALOG or INPUT and within the analog count, and 0xFFFF
      otherwise; an INPUT pin is left in ANALOG mode, and only then is
      anything sent. The readings themselves are never changed. */
  lemma AnalogReadLaw(c: Cache, offset: Byte, numAnalog: Byte, s: Option<string>)
    requires CacheValid(c) && AnalogNameInRange(s, offset, numAnalog)
    ensures var (st, v) := AnalogReadEffect(c, offset, numAnalog, s);
      var parsed := ParsePin(s);
      CacheValid(st.cache) && st.cache.analog == c.analog &&
      (parsed == 255 ==> st == Step(c, []) && v == NO_VALUE) &&
      (parsed != 255 ==>
        var pin := AnalogSlot(parsed, offset);
        var readable := c.modes[pin] == MODE_ANALOG || c.modes[pin] == MODE_INPUT;
        (readable ==> st.cache.modes[pin] == MODE_ANALOG) &&
        (!readable ==> st == Step(c, [])) &&
        (c.modes[pin] == MODE_INPUT <==> st.written != []) &&
        v == if readable && parsed < numAnalog then c.analog[parsed] else NO_VALUE)
  {
    var parsed := ParsePin(s);
    if parsed != 255 {
      var pin := AnalogSlot(parsed, offset);
      if c.modes[pin] == MODE_INPUT {
        PinModeLaw(c, pin, MODE_ANALOG);
        PinModeSent(c, pin, MODE_ANALOG);
      }
    }
  }

  /** The merged port keeps every unsubscribed HIGH bit and takes every
      subscribed bit from the report. */
  lemma MergedPortLaw(reported: int, cached: bv8, subscribed: bv8, k: nat)
    requires k < 8
    ensures var r := PortByte(reported);
      var m := MergedPort(reported, cached, subscribed);
      (!Bit(subscribed, k) && Bit(cached, k) ==> Bit(m, k)) &&
      (Bit(subscribed, k) ==> (Bit(m, k) <==> Bit(r, k)))
  {
  }

  /** The events from bit i on are digital events for pins i to 7 of the port. */
  lemma {:induction false} ChangedBounds(port: int, changed: bv8, v: bv8, i: nat)
    requires i <= 8
    ensures forall a :: 0 <= a < |Changed(port, changed, v, i)| ==>
      Changed(port, changed, v, i)[a].DigitalPinUpdated? &&
      port * 8 + i <= Changed(port, changed, v, i)[a].pin < port * 8 + 8
    decreases 8 - i
  {
    if i < 8 {
      ChangedBounds(port, changed, v, i + 1);
    }
  }

  /** The events come in ascending pin order. */
  lemma {:induction false} ChangedSorted(port: int, changed: bv8, v: bv8, i: nat)
    requires i <= 8
    ensures forall a, b :: 0 <= a < b < |Changed(port, changed, v, i)| ==>
      Changed(port, changed, v, i)[a].pin < Changed(port, changed, v, i)[b].pin
    decreases 8 - i
  {
    if i < 8 {
      ChangedSorted(port, changed, v, i + 1);
      ChangedBounds(port, changed, v, i + 1);
    }
  }

  /** Pin k's event is among the events from bit i on exactly when bit k of
      `changed` is set. */
  lemma {:induction false} ChangedMember(port: int, x: bv8, v: bv8, i: nat, k: nat)
    requires i <= k < 8
    ensures DigitalPinUpdated(port * 8 + k, Bit(v, k)) in Changed(port, x, v, i) <==> Bit(x, k)
    decreases 8 - i
  {
    var e := DigitalPinUpdated(port * 8 + k, Bit(v, k));
    var rest := Changed(port, x, v, i + 1);
    if i < k {
      ChangedMember(port, x, v, i + 1, k);
    } else {
      ChangedBounds(port, x, v, i + 1);
      assert e !in rest by {
        forall j | 0 <= j < |rest|
          ensures rest[j] != e
        {
          assert rest[j].pin > e.pin;
        }
      }
    }
  }

  /** Every event from bit i on is a digital event for a pin of the port, at
      or above bit i, carrying that pin's bit of v. */
  lemma {:induction false} ChangedEvent(port: int, x: bv8, v: bv8, i: nat, e: PinEvent)
    requires i <= 8 && e in Changed(port, x, v, i)
    ensures e.DigitalPinUpdated? && port * 8 + i <= e.pin < port * 8 + 8 && e.high == Bit(v, e.pin - port * 8)
    decreases 8 - i
  {
    if i < 8 && e in Changed(port, x, v, i + 1) {
      ChangedEvent(port, x, v, i + 1, e);
    }
  }

  /** The events of a digital report: exactly one per pin whose bit changed,
      carrying its new state, in ascending pin order. */
  lemma DigitalReportEvents(port: int, before: bv8, after: bv8)
    ensures var events := Changed(port, after ^ before, after, 0);
      (forall k :: 0 <= k < 8 ==>
        (DigitalPinUpdated(port * 8 + k, Bit(after, k)) in events <==> Bit(before, k) != Bit(after, k))) &&
      (forall a, b :: 0 <= a < b < |events| ==> events[a].pin < events[b].pin) &&
      (forall e :: e in events ==>
        e.DigitalPinUpdated? && port * 8 <= e.pin < port * 8 + 8 && e.high == Bit(after, e.pin - port * 8))
  {
    var x := after ^ before;
    ChangedSorted(port, x, after, 0);
    forall k | 0 <= k < 8
      ensures DigitalPinUpdated(port * 8 + k, Bit(after, k)) in Changed(port, x, after, 0) <==> Bit(before, k) != Bit(after, k)
    {
      XorBit(after, before, k);
      ChangedMember(port, x, after, 0, k);
    }
    forall e | e in Changed(port, x, after, 0)
      ensures e.DigitalPinUpdated? && port * 8 <= e.pin < port * 8 + 8 && e.high == Bit(after, e.pin - port * 8)
    {
      ChangedEvent(port, x, after, 0, e);
    }
  }

  /** Bit k of an exclusive or, one constant shift at a time. */
  lemma XorBit(a: bv8, b: bv8, k: nat)
    requires k < 8
    ensures Bit(a ^ b, k) <==> Bit(a, k) != Bit(b, k)
  {
    SingleBit(k);
    XorMask(a, b, Masks[k]);
  }

  /** Each of the eight masks has exactly one bit set. */
  lemma SingleBit(k: nat)
    requires k < 8
    ensures Masks[k] != 0 && Masks[k] & (Masks[k] - 1) == 0
  {
  }

  lemma XorMask(a: bv8, b: bv8, m: bv8)
    requires m != 0 && m & (m - 1) == 0
    ensures AnySet(a ^ b, m) <==> AnySet(a, m) != AnySet(b, m)
  {
  }

  /** `b >> i`. */
  function Shr(b: bv8, i: nat): bv8
    requires i <= 8
  {
    b >> i
  }

  /** Bit i is the low bit of the byte shifted right by i, one more shift
      moves on to bit i + 1, and eight shifts empty the byte. */
  lemma ShiftBit(b: bv8, i: nat)
    requires i < 8
    ensures (Shr(b, i) & 1 == 1) == Bit(b, i)
    ensures Shr(b, i + 1) == Shr(b, i) >> 1
  {
    ShiftLow(b, i);
    ShiftNext(b, i);
  }

  lemma ShiftLow(b: bv8, i: nat)
    requires i < 8
    ensures (Shr(b, i) & 1 == 1) == Bit(b, i)
  {
    if i == 0 {} else if i == 1 {} else if i == 2 {} else if i == 3 {}
    else if i == 4 {} else if i == 5 {} else if i == 6 {} else {}
  }

  lemma ShiftNext(b: bv8, i: nat)
    requires i < 8
    ensures Shr(b, i + 1) == Shr(b, i) >> 1
  {
    if i == 0 {} else if i == 1 {} else if i == 2 {} else if i == 3 {}
    else if i == 4 {} else if i == 5 {} else if i == 6 {} else {}
  }

  lemma ShiftOut(b: bv8)
    ensures Shr(b, 8) == 0
  {
  }

  /** When the remaining bits are all zero, no event is left to emit. */
  lemma {:induction false} ChangedDone(port: int, changed: bv8, v: bv8, i: nat)
    requires i <= 8 && Shr(changed, i) == 0
    ensures Changed(port, changed, v, i) == []
    decreases 8 - i
  {
    if i < 8 {
      ShiftBit(changed, i);
      ChangedDone(port, changed, v, i + 1);
    }
  }

  /** The event loop of `onDigitalReport`: the changed bits are shifted out
      lowest first, and each set one yields the pin's event. */
  method ReportChanges(port: Byte, portXor: bv8, portVal: bv8) returns (events: seq<PinEvent>)
    ensures events == Changed(port, portXor, portVal, 0)
  {
    events := [];
    var x := portXor;
    var i: nat := 0;
    ShiftOut(portXor);
    while x > 0
      invariant i <= 8 && x == Shr(portXor, i)
      invariant events + Changed(port, portXor, portVal, i) == Changed(port, portXor, portVal, 0)
      decreases 8 - i
    {
      ShiftBit(portXor, i);
      ghost var rest := Changed(port, portXor, portVal, i + 1);
      if x & 1 == 1 {
        var event := DigitalPinUpdated(port * 8 + i, Bit(portVal, i));
        assert Changed(port, portXor, portVal, i) == [event] + rest;
        AppendAssoc(events, [event], rest);
        events := events + [event];
      } else {
        assert Changed(port, portXor, portVal, i) == rest;
      }
      x := x >> 1;
      i := i + 1;
    }
    ChangedDone(port, portXor, portVal, i);
  }

  // ---------------------------------------------------------------------
  // "A<n>" analog pin names

  /** `long` is 32 bits wide on the toolchain this code targets. */
  const LONG_MAX := 0x7FFF_FFFF
  const LONG_MIN := -0x8000_0000

  predicate IsSpace(ch: char) {
    ch == ' ' || ch == '\t' || ch == '\n' || ch == '\U{000B}' || ch == '\U{000C}' || ch == '\r'
  }

  predicate IsDigit(ch: char) { '0' as int <= ch as int <= '9' as int }

  function SkipSpace(t: string): (r: string)
    ensures |r| <= |t| && r == t[|t| - |r|..]
    ensures r == [] || !IsSpace(r[0])
  {
    if t != [] && IsSpace(t[0]) then SkipSpace(t[1..]) else t
  }

  /** Length of the leading run of decimal digits. */
  function DigitRun(t: string): (n: nat)
    ensures n <= |t|
    ensures forall k :: 0 <= k < n ==> IsDigit(t[k])
    ensures n < |t| ==> !IsDigit(t[n])
  {
    if t != [] && IsDigit(t[0]) then 1 + DigitRun(t[1..]) else 0
  }

  /** The number a run of decimal digits spells. */
  function Value(ds: string): nat
    requires forall k :: 0 <= k < |ds| ==> IsDigit(ds[k])
  {
    if ds == [] then 0
    else
      assert IsDigit(ds[|ds| - 1]);
      Value(ds[..|ds| - 1]) * 10 + (ds[|ds| - 1] as int - '0' as int)
  }

  /** `wcstol(t, nullptr, 10)`: leading white space, an optional sign, the
      longest run of digits; 0 when there are none; clamped to the range of
      `long` on overflow. */
  function Wcstol(t: string): (r: int)
    ensures LONG_MIN <= r <= LONG_MAX
  {
    var u := SkipSpace(t);
    var negative := u != [] && u[0] == '-';
    var w := if u != [] && (u[0] == '-' || u[0] == '+') then u[1..] else u;
    var v: int := Value(w[..DigitRun(w)]);
    if negative then (if -v < LONG_MIN then LONG_MIN else -v)
    else (if v > LONG_MAX then LONG_MAX else v)
  }

  /** `parsePinFromAnalogString`: 255 for a null or too short name, a name
      not starting with 'a' or 'A', or a zero parse whose first digit is not
      '0'; otherwise the parsed number truncated to a byte. */
  function ParsePin(s: Option<string>): (r: Byte)
    ensures s.None? || |s.value| < 2 || (s.value[0] != 'a' && s.value[0] != 'A') ==> r == 255
    ensures s.Some? && |s.value| >= 2 && s.value[1] != '0' && Wcstol(s.value[1..]) == 0 ==> r == 255
  {
    if s.None? || |s.value| < 2 then 255
    else if s.value[0] != 'a' && s.value[0] != 'A' then 255
    else
      var n := Wcstol(s.value[1..]);
      if n == 0 && s.value[1] != '0' then 255 else n % 256
  }

  /** The decimal spelling of n. */
  function Decimal(n: nat): (ds: string)
    ensures |ds| >= 1
    decreases n
  {
    if n < 10 then [('0' as int + n) as char] else Decimal(n / 10) + [('0' as int + n % 10) as char]
  }

  lemma {:induction false} DecimalValue(n: nat)
    ensures forall k :: 0 <= k < |Decimal(n)| ==> IsDigit(Decimal(n)[k])
    ensures Value(Decimal(n)) == n
    decreases n
  {
    if n >= 10 {
      DecimalValue(n / 10);
      var ds := Decimal(n);
      assert ds[..|ds| - 1] == Decimal(n / 10);
    }
  }

  lemma {:induction false} DigitRunAll(t: string)
    requires forall k :: 0 <= k < |t| ==> IsDigit(t[k])
    ensures DigitRun(t) == |t|
  {
    if t != [] {
      DigitRunAll(t[1..]);
    }
  }

  /** A plain run of digits within the range of `long` converts to the
      number it spells. */
  lemma WcstolDigits(ds: string)
    requires ds != [] && forall k :: 0 <= k < |ds| ==> IsDigit(ds[k])
    requires Value(ds) <= LONG_MAX
    ensures Wcstol(ds) == Value(ds)
  {
    WcstolUnsigned(ds);
    DigitRunAll(ds);
    assert ds[..DigitRun(ds)] == ds;
  }

  /** Text starting with a digit has no blanks and no sign to skip: `wcstol`
      reads its leading digits, saturating at LONG_MAX. */
  lemma WcstolUnsigned(t: string)
    requires t != [] && IsDigit(t[0])
    ensures var v := Value(t[..DigitRun(t)]);
            Wcstol(t) == if v > LONG_MAX then LONG_MAX else v
  {
    assert !IsSpace(t[0]) && t[0] != '-' && t[0] != '+';
    assert SkipSpace(t) == t;
  }

  /** "A" or "a" followed by the decimal spelling of n names n truncated to a
      byte: n < 255 comes back unchanged, while "A255" is indistinguishable
      from the error value and "A256" names pin 0. */
  lemma AnalogNameRoundTrip(n: nat, letter: char)
    requires n <= LONG_MAX && (letter == 'A' || letter == 'a')
    ensures ParsePin(Some([letter] + Decimal(n))) == n % 256
  {
    var ds := Decimal(n);
    DecimalValue(n);
    WcstolDigits(ds);
    assert ([letter] + ds)[1..] == ds;
  }

  /** The name "A<n>" (or "a<n>") for n < 255 reaches the cached pin
      n + offset, as a byte: `getPinMode(name)` reads that pin's mode and
      `pinMode(name, mode)` acts on that pin. */
  lemma NamedPinLaw(c: Cache, offset: Byte, n: Byte, letter: char, mode: Byte)
    requires CacheValid(c) && (letter == 'A' || letter == 'a')
    requires n < 255 && AnalogSlot(n, offset) < MAX_PINS
    ensures var name := Some([letter] + Decimal(n));
      NamedSlotInRange(name, offset) &&
      NamedPinMode(c, offset, name) == c.modes[AnalogSlot(n, offset)] &&
      NamedPinModeEffect(c, offset, name, mode) == PinModeEffect(c, AnalogSlot(n, offset), mode)
  {
    AnalogNameRoundTrip(n, letter);
    ByteMod(n);
  }

  /** A name whose number is 255 modulo 256 ("A255", "A511", ...) parses to
      the error value: `getPinMode` answers IGNORED and `pinMode` does
      nothing. */
  lemma NamedPinAliasesError(c: Cache, offset: Byte, n: nat, letter: char, mode: Byte)
    requires CacheValid(c) && (letter == 'A' || letter == 'a')
    requires n <= LONG_MAX && n % 256 == 255
    ensures var name := Some([letter] + Decimal(n));
      NamedSlotInRange(name, offset) &&
      NamedPinMode(c, offset, name) == MODE_IGNORED &&
      NamedPinModeEffect(c, offset, name, mode) == Step(c, [])
  {
    AnalogNameRoundTrip(n, letter);
  }

  // ---------------------------------------------------------------------
  // The device

  class RemoteDevice {
    const digitalPort: array<bv8>
    const subscribedPorts: array<bv8>
    const analogPins: array<Word>
    const pinModes: array<Byte>
    var initialized: bool
    var totalPins: Byte
    var analogOffset: Byte
    var numAnalogPins: Byte
    /** Bytes handed to Firmata, in order. */
    var output: seq<Byte>

    ghost predicate Valid()
      reads this
    {
      digitalPort.Length == MAX_PORTS && subscribedPorts.Length == MAX_PORTS &&
      analogPins.Length == ANALOG_PINS && pinModes.Length == MAX_PINS &&
      digitalPort != subscribedPorts
    }

    ghost function State(): Cache
      reads this, digitalPort, subscribedPorts, analogPins, pinModes
      requires Valid()
    {
      Cache(digitalPort[..], subscribedPorts[..], analogPins[..], pinModes[..])
    }

    constructor ()
      ensures Valid() && fresh(digitalPort) && fresh(subscribedPorts) && fresh(analogPins) && fresh(pinModes)
      ensures !initialized && output == [] && totalPins == 0 && analogOffset == 0 && numAnalogPins == 0
    {
      digitalPort := new bv8[MAX_PORTS];
      subscribedPorts := new bv8[MAX_PORTS];
      analogPins := new Word[ANALOG_PINS];
      pinModes := new Byte[MAX_PINS];
      initialized := false;
      totalPins, analogOffset, numAnalogPins := 0, 0, 0;
      output := [];
    }

    /** `getPinMode(pin)`: the mode the cache records for the pin. */
    function GetPinMode(pin: Byte): (r: Byte)
      reads this, pinModes
      requires Valid() && pin < MAX_PINS
      ensures r == State().modes[pin]
    {
      pinModes[pin]
    }

    /** `getPinMode(name)`. */
    function GetPinModeByName(name: Option<string>): (r: Byte)
      reads this, digitalPort, subscribedPorts, analogPins, pinModes
      requires Valid() && NamedSlotInRange(name, analogOffset)
      ensures r == NamedPinMode(State(), analogOffset, name)
    {
      var parsed := ParsePin(name);
      if parsed == 255 then MODE_IGNORED else GetPinMode(AnalogSlot(parsed, analogOffset))
    }

    /** `pinMode(name, mode)`. */
    method PinModeByName(name: Option<string>, mode: Byte)
      requires Valid() && NamedSlotInRange(name, analogOffset)
      modifies this`output, digitalPort, subscribedPorts, pinModes
      ensures Valid()
      ensures var s := NamedPinModeEffect(old(State()), analogOffset, name, mode);
        State() == s.cache && output == old(output) + s.written
    {
      var parsed := ParsePin(name);
      if parsed == 255 {
        return;
      }
      PinMode(AnalogSlot(parsed, analogOffset), mode);
    }

    /** `pinMode(pin, mode)`. */
    method PinMode(pin: Byte, mode: Byte)
      requires Valid() && pin < MAX_PINS
      modifies this`output, digitalPort, subscribedPorts, pinModes
      ensures Valid()
      ensures var s := PinModeEffect(old(State()), pin, mode);
        State() == s.cache && output == old(output) + s.written
    {
      SendMode(pin, mode);
      SettlePinMode(pin, mode);
    }

    /** The Firmata-locked part of `pinMode`. */
    method SendMode(pin: Byte, mode: Byte)
      requires Valid() && pin < MAX_PINS
      modifies this`output, subscribedPorts
      ensures var s := SendModeEffect(old(State()), pin, mode);
        State() == s.cache && output == old(output) + s.written
    {
      ghost var c := State();
      var (port, mask) := PinMap(pin);
      var sent := [SET_PIN_MODE, pin, mode];
      if mode == MODE_INPUT || pinModes[pin] == MODE_INPUT {
        var sub := Subscription(subscribedPorts[port], mask, pinModes[pin], mode);
        subscribedPorts[port] := sub;
        assert subscribedPorts[..] == c.subscribed[port := sub];
        sent := sent + [CommandByte(REPORT_DIGITAL_PIN, port), ByteValue(sub)];
      }
      output := output + sent;
    }

    /** The cache updates at the end of `pinMode`. */
    method SettlePinMode(pin: Byte, mode: Byte)
      requires Valid() && pin < MAX_PINS
      modifies digitalPort, pinModes
      ensures State() == SettleMode(old(State()), pin, mode)
    {
      var (port, mask) := PinMap(pin);
      if mode == MODE_OUTPUT && pinModes[pin] != MODE_OUTPUT {
        digitalPort[port] := ClearBits(digitalPort[port], mask);
      }
      pinModes[pin] := mode;
    }

    /** `digitalWrite(pin, state)`. */
    method DigitalWrite(pin: Byte, high: bool)
      requires Valid() && pin < MAX_PINS
      modifies this`output, digitalPort, subscribedPorts, pinModes
      ensures Valid()
      ensures var s := DigitalWriteEffect(old(State()), pin, high);
        State() == s.cache && output == old(output) + s.written
    {
      ghost var c := State();
      var (port, mask) := PinMap(pin);
      if pinModes[pin] != MODE_OUTPUT {
        if pinModes[pin] == MODE_PWM {
          PinMode(pin, MODE_OUTPUT);
        } else {
          return;
        }
      }
      ghost var s := if c.modes[pin] == MODE_PWM then PinModeEffect(c, pin, MODE_OUTPUT) else Step(c, []);
      assert State() == s.cache && output == old(output) + s.written;
      DriveBit(pin, high);
      AppendAssoc(old(output), s.written, DriveBitEffect(s.cache, pin, high).written);
    }

    /** Sets or clears the pin's bit in its port cache and sends the port. */
    method DriveBit(pin: Byte, high: bool)
      requires Valid() && pin < MAX_PINS
      modifies this`output, digitalPort
      ensures Valid()
      ensures var d := DriveBitEffect(old(State()), pin, high);
        State() == d.cache && output == old(output) + d.written
    {
      var (port, mask) := PinMap(pin);
      var v := if high then SetBits(digitalPort[port], mask) else ClearBits(digitalPort[port], mask);
      digitalPort[port] := v;
      output := output + Firmata.DigitalFrame(port, ByteValue(v));
    }

    /** `digitalRead(pin)`. */
    method DigitalRead(pin: Byte) returns (high: bool)
      requires Valid() && pin < MAX_PINS
      modifies this`output, digitalPort, subscribedPorts, pinModes
      ensures Valid()
      ensures var (s, h) := DigitalReadEffect(old(State()), pin);
        State() == s.cache && output == old(output) + s.written && high == h
    {
      var (port, mask) := PinMap(pin);
      SwitchMode(pin, MODE_ANALOG, MODE_INPUT);
      high := AnySet(digitalPort[port], mask);
    }

    /** `analogWrite(pin, value)`. */
    method AnalogWrite(pin: Byte, value: Word)
      requires Valid() && pin < MAX_PINS
      modifies this`output, digitalPort, subscribedPorts, pinModes
      ensures Valid()
      ensures var s := AnalogWriteEffect(old(State()), pin, value);
        State() == s.cache && output == old(output) + s.written
    {
      if pinModes[pin] != MODE_PWM {
        if pinModes[pin] == MODE_OUTPUT {
          PinMode(pin, MODE_PWM);
          pinModes[pin] := MODE_PWM;
        } else {
          return;
        }
      }
      output := output + Firmata.AnalogFrame(pin, value);
    }

    /** `analogRead(name)`. */
    method AnalogRead(name: Option<string>) returns (value: Word)
      requires Valid() && AnalogNameInRange(name, analogOffset, numAnalogPins)
      modifies this`output, digitalPort, subscribedPorts, pinModes
      ensures Valid()
      ensures var (s, v) := AnalogReadEffect(old(State()), old(analogOffset), old(numAnalogPins), name);
        State() == s.cache && output == old(output) + s.written && value == v
    {
      var parsed := ParsePin(name);
      if parsed == 255 {
        return NO_VALUE;
      }
      var pin := AnalogSlot(parsed, analogOffset);
      var ready := SwitchToAnalog(pin);
      value := NO_VALUE;
      if ready && parsed < numAnalogPins {
        value := analogPins[parsed];
      }
    }

    /** The mode step of `analogRead`: an ANALOG pin is ready, an INPUT pin
        is switched to ANALOG first, any other pin is not read. */
    method SwitchToAnalog(pin: Byte) returns (ready: bool)
      requires Valid() && pin < MAX_PINS
      modifies this`output, digitalPort, subscribedPorts, pinModes
      ensures Valid()
      ensures ready <==> old(pinModes[pin]) == MODE_ANALOG || old(pinModes[pin]) == MODE_INPUT
      ensures var st := if old(pinModes[pin]) == MODE_INPUT then PinModeEffect(old(State()), pin, MODE_ANALOG) else Step(old(State()), []);
        State() == st.cache && output == old(output) + st.written
    {
      ready := pinModes[pin] == MODE_ANALOG || pinModes[pin] == MODE_INPUT;
      SwitchMode(pin, MODE_INPUT, MODE_ANALOG);
    }

    /** `if (mode == from) pinMode(pin, to)`. */
    method SwitchMode(pin: Byte, from: Byte, to: Byte)
      requires Valid() && pin < MAX_PINS
      modifies this`output, digitalPort, subscribedPorts, pinModes
      ensures Valid()
      ensures var st := if old(pinModes[pin]) == from then PinModeEffect(old(State()), pin, to) else Step(old(State()), []);
        State() == st.cache && output == old(output) + st.written
    {
      if pinModes[pin] == from {
        PinMode(pin, to);
      }
    }

    /** `onDigitalReport(port, value)`: merge the report into the cache and
        emit one event per changed bit, lowest bit first. */
    method OnDigitalReport(port: Byte, reported: int) returns (events: seq<PinEvent>)
      requires Valid() && port < MAX_PORTS
      modifies digitalPort
      ensures Valid()
      ensures var merged := MergedPort(reported, old(digitalPort[port]), subscribedPorts[port]);
        digitalPort[..] == old(digitalPort[..])[port := merged] &&
        events == Changed(port, merged ^ old(digitalPort[port]), merged, 0)
    {
      var portVal := PortByte(reported);
      var outputState := ClearBits(digitalPort[port], subscribedPorts[port]);
      portVal := SetBits(portVal, outputState);
      var portXor := portVal ^ digitalPort[port];
      digitalPort[port] := portVal;
      events := ReportChanges(port, portXor, portVal);
    }

    /** `onAnalogReport(pin, value)`: store the reading, emit one event. */
    method OnAnalogReport(pin: Byte, reported: int) returns (event: PinEvent)
      requires Valid() && pin < ANALOG_PINS
      modifies analogPins
      ensures analogPins[..] == old(analogPins[..])[pin := reported % 0x1_0000]
      ensures event == AnalogPinUpdated(pin, reported % 0x1_0000)
    {
      var val: Word := reported % 0x1_0000;
      analogPins[pin] := val;
      event := AnalogPinUpdated(pin, val);
    }

    /** `initialize`: the first call clears the caches and puts every pin in
        OUTPUT mode; later calls change nothing. */
    method Initialize()
      requires Valid()
      modifies this, digitalPort, subscribedPorts, analogPins, pinModes
      ensures Valid() && initialized
      ensures old(initialized) ==> State() == old(State())
      ensures !old(initialized) ==> State() == InitialCache
      ensures output == old(output) && totalPins == old(totalPins)
      ensures analogOffset == old(analogOffset) && numAnalogPins == old(numAnalogPins)
    {
      if initialized {
        return;
      }
      for k := 0 to MAX_PORTS
        modifies digitalPort, subscribedPorts
        invariant forall q :: 0 <= q < k ==> digitalPort[q] == 0 && subscribedPorts[q] == 0
      {
        digitalPort[k] := 0;
        subscribedPorts[k] := 0;
      }
      for k := 0 to ANALOG_PINS
        modifies analogPins
        invariant forall q :: 0 <= q < k ==> analogPins[q] == 0
      {
        analogPins[k] := 0;
      }
      for k := 0 to MAX_PINS
        modifies pinModes
        invariant forall q :: 0 <= q < k ==> pinModes[q] == MODE_OUTPUT
      {
        pinModes[k] := MODE_OUTPUT;
      }
      initialized := true;
      assert digitalPort[..] == InitialCache.ports;
      assert subscribedPorts[..] == InitialCache.subscribed;
      assert analogPins[..] == InitialCache.analog;
      assert pinModes[..] == InitialCache.modes;
    }

    /** `onPinCapabilityResponseReceived`: the device's own copy of the
        capability scan, then `initialize`. */
    method OnPinCapabilityResponseReceived(data: seq<Byte>)
      requires Valid()
      modifies this, digitalPort, subscribedPorts, analogPins, pinModes
      ensures Valid() && initialized && output == old(output)
      ensures Counts(totalPins, analogOffset, numAnalogPins) == Scan(DeviceDialect, data)
      ensures old(initialized) ==> State() == old(State())
      ensures !old(initialized) ==> State() == InitialCache
    {
      var total, offset, analog := ScanCounts(DeviceDialect, data);
      totalPins, analogOffset, numAnalogPins := total, offset, analog;
      Initialize();
    }
  }
}
