/** The hardware profile of a remote board: pin counts and the analog offset
    taken from a capability response, and the per-pin capability bitmask
    table behind the pin-list properties and the `is*Supported` queries. */
module HardwareProfiles {
  import opened Protocol
  import opened CapabilityScan

  /** What the profile's getters read: the validity flag, the three counts
      and the per-pin `PinCapability` bitmask table. */
  datatype ProfileView = ProfileView(valid: bool, total: int, offset: int, analogCount: int, capabilities: seq<bv8>)

  /** `getPinCapabilitiesBitmask`: the pin's bitmask, or 0 when the profile is
      not valid or the pin is outside the profile. */
  function Bitmask(v: ProfileView, pin: int): (r: bv8)
    ensures !v.valid || pin < 0 || v.total <= pin || |v.capabilities| <= pin ==> r == 0
  {
    if v.valid && 0 <= pin < v.total && pin < |v.capabilities| then v.capabilities[pin] else 0
  }

  /** `isAnalogSupported`, `isDigitalInputSupported`, ... : one capability bit
      of the pin's bitmask. */
  predicate Supported(v: ProfileView, pin: int, cap: bv8) {
    Bitmask(v, pin) & cap != 0
  }

  /** The six pin-list properties. */
  datatype PinList = AnalogPins | DigitalPins | DisabledPins | I2cPins | PwmPins | ServoPins

  /** The pin each list's scan starts from: AnalogPins starts at the analog
      offset (a negative offset converts to a huge `size_t`, so nothing is
      scanned), the others at pin 0. */
  function Start(v: ProfileView, l: PinList): int {
    if l != AnalogPins then 0
    else if v.offset < 0 then v.total
    else v.offset
  }

  /** The test each list applies to a pin. */
  predicate Selects(v: ProfileView, l: PinList, pin: int) {
    match l
    case AnalogPins => Supported(v, pin, CAP_ANALOG)
    case DigitalPins => Supported(v, pin, CAP_OUTPUT)
    case DisabledPins => Bitmask(v, pin) == 0
    case I2cPins => Supported(v, pin, CAP_I2C)
    case PwmPins => Supported(v, pin, CAP_PWM)
    case ServoPins => Supported(v, pin, CAP_SERVO)
  }

  /** The getter's loop over [pin, hi), appending the pins that pass. */
  function Collect(v: ProfileView, l: PinList, pin: int, hi: int): seq<int>
    decreases hi - pin
  {
    if pin >= hi then []
    else (if Selects(v, l, pin) then [pin] else []) + Collect(v, l, pin + 1, hi)
  }

  /** A pin-list property: empty unless the profile is valid. */
  function Pins(v: ProfileView, l: PinList): seq<int> {
    if v.valid then Collect(v, l, Start(v, l), v.total) else []
  }

  // ---------------------------------------------------------------------
  // Shape of the pin lists

  lemma {:induction false} CollectShape(v: ProfileView, l: PinList, lo: int, hi: int)
    ensures forall i, j :: 0 <= i < j < |Collect(v, l, lo, hi)| ==> Collect(v, l, lo, hi)[i] < Collect(v, l, lo, hi)[j]
    ensures forall x :: x in Collect(v, l, lo, hi) <==> lo <= x < hi && Selects(v, l, x)
    decreases hi - lo
  {
    if lo < hi {
      CollectShape(v, l, lo + 1, hi);
      var rest := Collect(v, l, lo + 1, hi);
      assert forall j :: 0 <= j < |rest| ==> lo < rest[j] by {
        forall j | 0 <= j < |rest|
          ensures lo < rest[j]
        {
          assert rest[j] in rest;
        }
      }
    }
  }

  /** Every list is strictly ascending, and a pin is listed exactly when the
      profile is valid, the pin lies between the list's start and
      TotalPinCount, and the pin passes the list's test. */
  lemma PinsShape(v: ProfileView, l: PinList)
    ensures !v.valid ==> Pins(v, l) == []
    ensures forall i, j :: 0 <= i < j < |Pins(v, l)| ==> Pins(v, l)[i] < Pins(v, l)[j]
    ensures forall x :: x in Pins(v, l) <==> v.valid && Start(v, l) <= x < v.total && Selects(v, l, x)
  {
    CollectShape(v, l, Start(v, l), v.total);
  }

  /** DigitalPins is exactly the output-capable pins, DisabledPins exactly the
      pins with an empty bitmask, and AnalogPins never lists a pin below the
      analog offset even when that pin is analog-capable. */
  lemma ListsMeaning(v: ProfileView, pin: int)
    requires v.valid && 0 <= pin < v.total
    ensures pin in Pins(v, DigitalPins) <==> Bitmask(v, pin) & CAP_OUTPUT != 0
    ensures pin in Pins(v, DisabledPins) <==> Bitmask(v, pin) == 0
    ensures pin < v.offset ==> pin !in Pins(v, AnalogPins)
    ensures 0 <= v.offset <= pin ==> (pin in Pins(v, AnalogPins) <==> Bitmask(v, pin) & CAP_ANALOG != 0)
  {
    PinsShape(v, DigitalPins);
    PinsShape(v, DisabledPins);
    PinsShape(v, AnalogPins);
  }

  /** The seven PinCapability values are distinct single bits, so each
      capability is tested independently by AND with the bitmask. */
  lemma CapabilityBits()
    ensures forall i :: 0 <= i < |Capabilities| ==> Capabilities[i] != 0 && Capabilities[i] & (Capabilities[i] - 1) == 0
    ensures forall i, j :: 0 <= i < j < |Capabilities| ==> Capabilities[i] & Capabilities[j] == 0
  {
  }

  /** Out-of-range pins and invalid profiles answer 0 and false, never fail. */
  lemma QueriesOutsideProfile(v: ProfileView, pin: int)
    requires !v.valid || pin < 0 || v.total <= pin
    ensures Bitmask(v, pin) == 0
    ensures forall c :: c in Capabilities ==> !Supported(v, pin, c)
  {
  }

  /** A pin declaring all seven capabilities answers true to every query; a
      pin declaring none answers false to all and is listed as disabled. */
  lemma AllOrNoCapabilities(v: ProfileView, pin: int)
    requires v.valid && 0 <= pin < v.total && pin < |v.capabilities|
    ensures v.capabilities[pin] == 0x7F ==> forall c :: c in Capabilities ==> Supported(v, pin, c)
    ensures v.capabilities[pin] == 0 ==> (forall c :: c in Capabilities ==> !Supported(v, pin, c)) && pin in Pins(v, DisabledPins)
  {
    PinsShape(v, DisabledPins);
  }

  /** A list whose test holds on exactly [a, b) inside the scanned range has
      b - a pins. */
  lemma {:induction false} CollectInterval(v: ProfileView, l: PinList, lo: int, hi: int, a: int, b: int)
    requires lo <= a <= b <= hi
    requires forall p :: lo <= p < hi ==> (Selects(v, l, p) <==> a <= p < b)
    ensures |Collect(v, l, lo, hi)| == b - a
    decreases hi - lo
  {
    if lo < hi {
      if lo < a {
        CollectInterval(v, l, lo + 1, hi, a, b);
      } else if lo < b {
        CollectInterval(v, l, lo + 1, hi, a + 1, b);
      } else {
        CollectInterval(v, l, lo + 1, hi, lo + 1, lo + 1);
      }
    }
  }

  /** Ten pins with nested capability ranges (analog on pin 0, output on
      0..1, I2C on 0..2, PWM on 0..3, servo on 0..4, the rest none). */
  function NestedTable(): (caps: seq<bv8>)
    ensures |caps| == 10
  {
    [ CAP_ANALOG | CAP_OUTPUT | CAP_I2C | CAP_PWM | CAP_SERVO,
      CAP_OUTPUT | CAP_I2C | CAP_PWM | CAP_SERVO,
      CAP_I2C | CAP_PWM | CAP_SERVO,
      CAP_PWM | CAP_SERVO,
      CAP_SERVO,
      0, 0, 0, 0, 0 ]
  }

  /** The pins [a, b) on which each list's test holds in the nested table. */
  function NestedRange(l: PinList): (int, int) {
    match l
    case AnalogPins => (0, 1)
    case DigitalPins => (0, 2)
    case I2cPins => (0, 3)
    case PwmPins => (0, 4)
    case ServoPins => (0, 5)
    case DisabledPins => (5, 10)
  }

  const Nested := ProfileView(true, 10, 0, 1, NestedTable())

  lemma NestedSelects(l: PinList, p: int)
    requires 0 <= p < 10
    ensures Selects(Nested, l, p) <==> NestedRange(l).0 <= p < NestedRange(l).1
  {
    assert Bitmask(Nested, p) == NestedTable()[p];
  }

  /** The nested-range board lists 1 analog, 2 digital, 3 I2C, 4 PWM,
      5 servo and 5 disabled pins. */
  lemma NestedRanges(l: PinList)
    ensures |Pins(Nested, l)| == NestedRange(l).1 - NestedRange(l).0
  {
    forall p | 0 <= p < 10
      ensures Selects(Nested, l, p) <==> NestedRange(l).0 <= p < NestedRange(l).1
    {
      NestedSelects(l, p);
    }
    CollectInterval(Nested, l, 0, 10, NestedRange(l).0, NestedRange(l).1);
  }

  // ---------------------------------------------------------------------
  // The profile object

  class HardwareProfile {
    var isValid: bool
    var totalPins: int
    var analogOffset: int
    var numAnalogPins: int
    /** The per-pin bitmask table; neither constructor fills it. */
    var pinCapabilities: seq<bv8>

    function View(): ProfileView
      reads this
    {
      ProfileView(isValid, totalPins, analogOffset, numAnalogPins, pinCapabilities)
    }

    /** The buffer constructor with the Firmata protocol: start invalid with
        zero counts, then scan the buffer. `pullup` is the PULLUP mode code. */
    constructor FromBuffer(buffer: Option<seq<Byte>>, pullup: Byte)
      requires DialectValid(ProfileDialect(pullup))
      ensures buffer.None? ==> View() == ProfileView(false, 0, 0, 0, [])
      ensures buffer.Some? ==>
        var c := Scan(ProfileDialect(pullup), buffer.value);
        View() == ProfileView(true, c.total, c.offset, c.analog, [])
    {
      isValid, totalPins, analogOffset, numAnalogPins := false, 0, 0, 0;
      pinCapabilities := [];
      new;
      InitializeWithFirmata(buffer, pullup);
    }

    /** The counts-only constructor: total = digital + analog, offset =
        digital, and the profile stays invalid. */
    constructor FromCounts(digital: int, analog: int)
      ensures View() == ProfileView(false, digital + analog, digital, analog, [])
    {
      isValid := false;
      totalPins := analog + digital;
      analogOffset := digital;
      numAnalogPins := analog;
      pinCapabilities := [];
    }

    /** `initializeWithFirmata`: a null buffer changes nothing; any other
        buffer, the empty one included, is scanned and makes the profile
        valid. */
    method InitializeWithFirmata(buffer: Option<seq<Byte>>, pullup: Byte)
      requires DialectValid(ProfileDialect(pullup))
      modifies this
      ensures buffer.None? ==> View() == old(View())
      ensures buffer.Some? ==>
        var c := Scan(ProfileDialect(pullup), buffer.value);
        View() == old(View()).(valid := true, total := c.total, offset := c.offset, analogCount := c.analog)
    {
      if buffer.None? {
        return;
      }
      var total, offset, analog := ScanCounts(ProfileDialect(pullup), buffer.value);
      totalPins := total;
      analogOffset := offset;
      numAnalogPins := analog;
      isValid := true;
    }
  }

  /** The modes the hardware-profile scan reads as (mode, resolution) pairs. */
  predicate ProfileModes(pullup: Byte, gs: seq<seq<Capability>>) {
    forall p, k :: 0 <= p < |gs| && 0 <= k < |gs[p]| ==>
      gs[p][k].mode in {MODE_INPUT, MODE_OUTPUT, pullup, MODE_ANALOG, MODE_PWM, MODE_SERVO, MODE_I2C}
  }

  /** A payload declaring only INPUT, OUTPUT, PULLUP, ANALOG, PWM, SERVO and
      I2C modes is scanned pair by pair: the profile reports one pin per group
      and one analog pin per ANALOG entry (both mod 256). */
  lemma ProfileOfBoard(pullup: Byte, gs: seq<seq<Capability>>)
    requires DialectValid(ProfileDialect(pullup)) && ProfileModes(pullup, gs)
    ensures Scan(ProfileDialect(pullup), EncodeGroups(gs)).total == |gs| % 256
    ensures Scan(ProfileDialect(pullup), EncodeGroups(gs)).analog == AnalogTotal(gs) % 256
  {
    var d := ProfileDialect(pullup);
    assert Paired(d, gs) by {
      forall p, k | 0 <= p < |gs| && 0 <= k < |gs[p]|
        ensures gs[p][k].mode != END_OF_PIN && Advance(d, gs[p][k].mode) == 2
      {
        assert gs[p][k].mode in {MODE_INPUT, MODE_OUTPUT, pullup, MODE_ANALOG, MODE_PWM, MODE_SERVO, MODE_I2C};
      }
    }
    ScanCountsPins(d, gs);
    ScanCountsAnalog(d, gs);
  }
}
