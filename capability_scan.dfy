/** The capability-response scan shared (in two diverging copies) by
    `HardwareProfile::initializeWithFirmata` and
    `RemoteDevice::onPinCapabilityResponseReceived`: an index walks a byte
    payload made of one group per pin, each group a run of (mode, resolution)
    pairs closed by 0x7F, and three 8-bit counters record the number of pins,
    the number of analog modes and the "analog offset" (the first pin that
    supports analog read, with 0 standing for "not yet seen"). */
module CapabilityScan {
  import opened Protocol

  /** Which copy of the scan: they differ only in how many bytes each mode
      code consumes.
      - `ProfileDialect` is the hardware-profile copy: INPUT, OUTPUT, PULLUP,
        ANALOG, PWM, SERVO and I2C consume a (mode, resolution) pair, any other
        code one byte. PULLUP's numeric code is not part of this model, so it
        is a parameter distinct from the named codes.
      - `DeviceDialect` is the remote-device copy: INPUT consumes four bytes,
        ANALOG, PWM, SERVO and I2C a pair, every other code (OUTPUT included)
        one byte.
      - `PairDialect` is the corrected scan: every mode consumes its pair. */
  datatype Dialect = ProfileDialect(pullup: Byte) | DeviceDialect | PairDialect

  /** The PULLUP code must differ from every case label of the switch. */
  predicate DialectValid(d: Dialect) {
    d.ProfileDialect? ==> !IsNamedMode(d.pullup)
  }

  /** Bytes consumed by the `switch (mode)` for one mode code. */
  function Advance(d: Dialect, m: Byte): (r: nat)
    ensures m == MODE_ANALOG ==> r == 2
    ensures d.PairDialect? ==> r == 2
  {
    match d
    case ProfileDialect(pullup) =>
      if m in {MODE_INPUT, MODE_OUTPUT, pullup, MODE_ANALOG, MODE_PWM, MODE_SERVO, MODE_I2C} then 2 else 1
    case DeviceDialect =>
      if m == MODE_INPUT then 4
      else if m in {MODE_ANALOG, MODE_PWM, MODE_SERVO, MODE_I2C} then 2
      else 1
    case PairDialect => 2
  }

  /** The three `byte` locals of the scan. */
  datatype Counts = Counts(total: Byte, offset: Byte, analog: Byte)

  const Unset := Counts(0, 0, 0)

  /** The ANALOG case: record the current pin as the offset if the offset is
      still 0, and count one more analog mode; other modes count nothing. */
  function Note(m: Byte, c: Counts): Counts {
    if m == MODE_ANALOG then
      Counts(c.total, if c.offset == 0 then c.total else c.offset, (c.analog as int + 1) % 256)
    else c
  }

  /** `total_pins++` on an 8-bit counter. */
  function Bump(c: Counts): Counts {
    c.(total := (c.total as int + 1) % 256)
  }

  /** The inner `while`: from position i, take modes until the 0x7F marker
      or the end of the payload; the position it stops at and the counters. */
  function Group(d: Dialect, data: seq<Byte>, i: nat, c: Counts): (r: (nat, Counts))
    ensures i <= r.0
    ensures r.0 < |data| ==> data[r.0] == END_OF_PIN
    decreases |data| - i
  {
    if i >= |data| || data[i] == END_OF_PIN then (i, c)
    else Group(d, data, i + Advance(d, data[i]), Note(data[i], c))
  }

  /** The outer `for`: one group per iteration, one pin counted per group,
      then the marker is stepped over. */
  function Pins(d: Dialect, data: seq<Byte>, i: nat, c: Counts): Counts
    decreases |data| - i
  {
    if i >= |data| then c
    else
      var g := Group(d, data, i, c);
      Pins(d, data, g.0 + 1, Bump(g.1))
  }

  /** The counters the whole scan leaves, starting from zero. */
  function Scan(d: Dialect, data: seq<Byte>): Counts {
    Pins(d, data, 0, Unset)
  }

  /** The nested scan loop of both copies: the position advances by the
      dialect's step for each mode, a pin is counted when its group ends. */
  method ScanCounts(d: Dialect, data: seq<Byte>) returns (total: Byte, offset: Byte, analog: Byte)
    ensures Counts(total, offset, analog) == Scan(d, data)
  {
    total, offset, analog := 0, 0, 0;
    var i: nat := 0;
    while i < |data|
      invariant Pins(d, data, i, Counts(total, offset, analog)) == Scan(d, data)
      decreases |data| - i
    {
      var j, c := ScanGroup(d, data, i, Counts(total, offset, analog));
      offset, analog := c.offset, c.analog;
      total := (c.total as int + 1) % 256;
      i := j + 1;
    }
  }

  /** The inner loop of the scan: the modes of one group, up to its marker. */
  method ScanGroup(d: Dialect, data: seq<Byte>, start: nat, c: Counts) returns (i: nat, r: Counts)
    ensures (i, r) == Group(d, data, start, c)
  {
    i := start;
    var total: Byte, offset: Byte, analog: Byte := c.total, c.offset, c.analog;
    while i < |data| && data[i] != END_OF_PIN
      invariant start <= i
      invariant Group(d, data, i, Counts(total, offset, analog)) == Group(d, data, start, c)
      decreases |data| - i
    {
      var mode := data[i];
      if mode == MODE_ANALOG {
        if offset == 0 {
          offset := total;
        }
        analog := (analog as int + 1) % 256;
      }
      i := i + Advance(d, mode);
    }
    r := Counts(total, offset, analog);
  }

  // ---------------------------------------------------------------------
  // Well-formed payloads

  /** One (mode, resolution) pair of a pin's group. */
  datatype Capability = Capability(mode: Byte, resolution: Byte)

  /** The pairs of one pin, mode first. */
  function PinBytes(g: seq<Capability>): (r: seq<Byte>)
    ensures |r| == 2 * |g|
    ensures forall k :: 0 <= k < |g| ==> r[2 * k] == g[k].mode && r[2 * k + 1] == g[k].resolution
  {
    if g == [] then [] else [g[0].mode, g[0].resolution] + PinBytes(g[1..])
  }

  /** The payload a board with these pins answers: every pin's pairs, each
      group closed by 0x7F (the capability response without its sysex frame). */
  function EncodeGroups(gs: seq<seq<Capability>>): (r: seq<Byte>)
    ensures |gs| > 0 ==> |r| > 0 && r[|r| - 1] == END_OF_PIN
  {
    if gs == [] then [] else PinBytes(gs[0]) + [END_OF_PIN] + EncodeGroups(gs[1..])
  }

  /** Every declared mode is a code the dialect reads as a pair, and none is
      the 0x7F marker (resolutions may be any byte: they are skipped). */
  predicate Paired(d: Dialect, gs: seq<seq<Capability>>) {
    forall p, k :: 0 <= p < |gs| && 0 <= k < |gs[p]| ==>
      gs[p][k].mode != END_OF_PIN && Advance(d, gs[p][k].mode) == 2
  }

  /** Reference semantics of a well-formed payload, group by group. */
  function Notes(g: seq<Capability>, c: Counts): (r: Counts)
    ensures r.total == c.total
  {
    if g == [] then c else Notes(g[1..], Note(g[0].mode, c))
  }

  function Fold(gs: seq<seq<Capability>>, c: Counts): Counts {
    if gs == [] then c else Fold(gs[1..], Bump(Notes(gs[0], c)))
  }

  /** Number of ANALOG entries in a pin's group. */
  function AnalogModes(g: seq<Capability>): nat {
    if g == [] then 0 else (if g[0].mode == MODE_ANALOG then 1 else 0) + AnalogModes(g[1..])
  }

  function AnalogTotal(gs: seq<seq<Capability>>): nat {
    if gs == [] then 0 else AnalogModes(gs[0]) + AnalogTotal(gs[1..])
  }

  predicate HasAnalog(g: seq<Capability>) {
    exists k :: 0 <= k < |g| && g[k].mode == MODE_ANALOG
  }

  // ---------------------------------------------------------------------
  // Scanning a well-formed payload

  lemma {:induction false} GroupShift(d: Dialect, pre: seq<Byte>, post: seq<Byte>, i: nat, c: Counts)
    ensures Group(d, pre + post, |pre| + i, c).0 == |pre| + Group(d, post, i, c).0
    ensures Group(d, pre + post, |pre| + i, c).1 == Group(d, post, i, c).1
    decreases |post| - i
  {
    if i < |post| && post[i] != END_OF_PIN {
      assert (pre + post)[|pre| + i] == post[i];
      GroupShift(d, pre, post, i + Advance(d, post[i]), Note(post[i], c));
    }
  }

  lemma {:induction false} PinsShift(d: Dialect, pre: seq<Byte>, post: seq<Byte>, i: nat, c: Counts)
    ensures Pins(d, pre + post, |pre| + i, c) == Pins(d, post, i, c)
    decreases |post| - i
  {
    if i < |post| {
      GroupShift(d, pre, post, i, c);
      var g := Group(d, post, i, c);
      PinsShift(d, pre, post, g.0 + 1, Bump(g.1));
    }
  }

  /** One well-formed group followed by anything: the inner loop stops on
      its marker, having noted exactly the group's modes. */
  lemma {:induction false} GroupEncoded(d: Dialect, g: seq<Capability>, tail: seq<Byte>, c: Counts)
    requires Paired(d, [g])
    ensures Group(d, PinBytes(g) + [END_OF_PIN] + tail, 0, c) == (2 * |g|, Notes(g, c))
  {
    var data := PinBytes(g) + [END_OF_PIN] + tail;
    if g != [] {
      var m := g[0].mode;
      assert [g][0][0] == g[0];
      assert Paired(d, [g[1..]]) by {
        forall k | 0 <= k < |g[1..]|
          ensures g[1..][k].mode != END_OF_PIN && Advance(d, g[1..][k].mode) == 2
        {
          assert [g][0][k + 1] == g[1..][k];
        }
      }
      var rest := PinBytes(g[1..]) + [END_OF_PIN] + tail;
      assert data == [m, g[0].resolution] + rest;
      GroupShift(d, [m, g[0].resolution], rest, 0, Note(m, c));
      GroupEncoded(d, g[1..], tail, Note(m, c));
    }
  }

  /** Scanning an encoded board is the group-by-group reference fold. */
  lemma {:induction false} PinsEncoded(d: Dialect, gs: seq<seq<Capability>>, c: Counts)
    requires Paired(d, gs)
    ensures Pins(d, EncodeGroups(gs), 0, c) == Fold(gs, c)
  {
    if gs != [] {
      PairedSplit(d, gs);
      var rest := EncodeGroups(gs[1..]);
      var c1 := Bump(Notes(gs[0], c));
      PinsFirstGroup(d, gs[0], rest, c);
      PinsEncoded(d, gs[1..], c1);
    }
  }

  /** The scan of one well-formed group followed by anything counts the
      group's pin, then goes on with what follows. */
  lemma PinsFirstGroup(d: Dialect, g: seq<Capability>, rest: seq<Byte>, c: Counts)
    requires Paired(d, [g])
    ensures Pins(d, PinBytes(g) + [END_OF_PIN] + rest, 0, c) == Pins(d, rest, 0, Bump(Notes(g, c)))
  {
    var head := PinBytes(g) + [END_OF_PIN];
    var c1 := Bump(Notes(g, c));
    GroupEncoded(d, g, rest, c);
    assert Pins(d, head + rest, 0, c) == Pins(d, head + rest, |head|, c1);
    PinsShift(d, head, rest, 0, c1);
  }

  /** The first group of a well-formed board, and the groups after it, are well formed. */
  lemma PairedSplit(d: Dialect, gs: seq<seq<Capability>>)
    requires Paired(d, gs) && gs != []
    ensures Paired(d, [gs[0]]) && Paired(d, gs[1..])
  {
    var g := gs[0];
    forall k | 0 <= k < |[g][0]|
      ensures [g][0][k].mode != END_OF_PIN && Advance(d, [g][0][k].mode) == 2
    {
      assert gs[0][k] == [g][0][k];
    }
    forall p, k | 0 <= p < |gs[1..]| && 0 <= k < |gs[1..][p]|
      ensures gs[1..][p][k].mode != END_OF_PIN && Advance(d, gs[1..][p][k].mode) == 2
    {
      assert gs[1..][p] == gs[p + 1];
    }
  }

  lemma ScanEncoded(d: Dialect, gs: seq<seq<Capability>>)
    requires Paired(d, gs)
    ensures Scan(d, EncodeGroups(gs)) == Fold(gs, Unset)
  {
    PinsEncoded(d, gs, Unset);
  }

  // ---------------------------------------------------------------------
  // The reference fold's counters

  lemma {:induction false} NotesEffect(g: seq<Capability>, c: Counts)
    ensures Notes(g, c).analog == (c.analog + AnalogModes(g)) % 256
    ensures Notes(g, c).offset == if c.offset == 0 && HasAnalog(g) then c.total else c.offset
  {
    if g != [] {
      var c' := Note(g[0].mode, c);
      NotesEffect(g[1..], c');
      assert HasAnalog(g) <==> g[0].mode == MODE_ANALOG || HasAnalog(g[1..]) by {
        if HasAnalog(g[1..]) {
          var k :| 0 <= k < |g[1..]| && g[1..][k].mode == MODE_ANALOG;
          assert g[k + 1] == g[1..][k];
        }
        if HasAnalog(g) && g[0].mode != MODE_ANALOG {
          var k :| 0 <= k < |g| && g[k].mode == MODE_ANALOG;
          assert g[1..][k - 1] == g[k];
        }
      }
    }
  }

  /** Adding to an 8-bit counter that already wrapped. */
  lemma ModAdd(a: int, b: int)
    ensures (a % 256 + b) % 256 == (a + b) % 256
  {
    var q := a / 256;
    assert a == 256 * q + a % 256;
    assert a + b == (a % 256 + b) + 256 * q;
  }

  lemma {:induction false} FoldCounts(gs: seq<seq<Capability>>, c: Counts)
    ensures Fold(gs, c).total == (c.total + |gs|) % 256
    ensures Fold(gs, c).analog == (c.analog + AnalogTotal(gs)) % 256
  {
    if gs != [] {
      var c' := Bump(Notes(gs[0], c));
      NotesEffect(gs[0], c);
      FoldCounts(gs[1..], c');
      ModAdd(c.total as int + 1, |gs| - 1);
      ModAdd(c.analog + AnalogModes(gs[0]), AnalogTotal(gs[1..]));
    }
  }

  /** Once set to a non-zero pin, the offset is never overwritten. */
  lemma {:induction false} FoldKeepsOffset(gs: seq<seq<Capability>>, c: Counts)
    requires c.offset != 0
    ensures Fold(gs, c).offset == c.offset
  {
    if gs != [] {
      NotesEffect(gs[0], c);
      FoldKeepsOffset(gs[1..], Bump(Notes(gs[0], c)));
    }
  }

  lemma {:induction false} FoldSnoc(gs: seq<seq<Capability>>, g: seq<Capability>, c: Counts)
    ensures Fold(gs + [g], c) == Bump(Notes(g, Fold(gs, c)))
  {
    if gs == [] {
      assert gs + [g] == [g];
    } else {
      assert (gs + [g])[0] == gs[0];
      assert (gs + [g])[1..] == gs[1..] + [g];
      FoldSnoc(gs[1..], g, Bump(Notes(gs[0], c)));
    }
  }

  lemma {:induction false} FoldAppend(xs: seq<seq<Capability>>, ys: seq<seq<Capability>>, c: Counts)
    ensures Fold(xs + ys, c) == Fold(ys, Fold(xs, c))
  {
    if xs == [] {
      assert xs + ys == ys;
    } else {
      assert (xs + ys)[0] == xs[0];
      assert (xs + ys)[1..] == xs[1..] + ys;
      FoldAppend(xs[1..], ys, Bump(Notes(xs[0], c)));
    }
  }

  /** Up to the first analog pin above 0, the offset is still unset and the
      pin counter equals the number of pins seen. */
  lemma {:induction false} OffsetUnsetPrefix(gs: seq<seq<Capability>>, k: nat)
    requires k <= |gs| && k <= 256
    requires forall q :: 0 < q < k ==> !HasAnalog(gs[q])
    ensures Fold(gs[..k], Unset).offset == 0
    ensures Fold(gs[..k], Unset).total == k % 256
  {
    if k > 0 {
      OffsetUnsetPrefix(gs, k - 1);
      assert gs[..k] == gs[..k - 1] + [gs[k - 1]];
      FoldSnoc(gs[..k - 1], gs[k - 1], Unset);
      NotesEffect(gs[k - 1], Fold(gs[..k - 1], Unset));
    }
  }

  // ---------------------------------------------------------------------
  // What the scan reports for a well-formed payload

  /** TotalPinCount is the number of groups (mod 256: the counter is a byte). */
  lemma ScanCountsPins(d: Dialect, gs: seq<seq<Capability>>)
    requires Paired(d, gs)
    ensures Scan(d, EncodeGroups(gs)).total == |gs| % 256
  {
    ScanEncoded(d, gs);
    FoldCounts(gs, Unset);
  }

  /** AnalogPinCount is the number of ANALOG entries (mod 256). */
  lemma ScanCountsAnalog(d: Dialect, gs: seq<seq<Capability>>)
    requires Paired(d, gs)
    ensures Scan(d, EncodeGroups(gs)).analog == AnalogTotal(gs) % 256
  {
    ScanEncoded(d, gs);
    FoldCounts(gs, Unset);
  }

  /** The fold's offset after the first analog pin above 0 is that pin. */
  lemma FoldOffsetAt(gs: seq<seq<Capability>>, p: nat)
    requires 0 < p < |gs| && p < 256 && HasAnalog(gs[p])
    requires forall q :: 0 < q < p ==> !HasAnalog(gs[q])
    ensures Fold(gs[..p + 1], Unset).offset == p
  {
    OffsetUnsetPrefix(gs, p);
    var pre, g := gs[..p], gs[p];
    var before := Fold(pre, Unset);
    FoldSnoc(pre, g, Unset);
    NotesEffect(g, before);
    assert pre + [g] == gs[..p + 1];
  }

  /** The fold's offset once the first analog pin above 0 has been seen. */
  lemma FoldOffset(gs: seq<seq<Capability>>, p: nat)
    requires 0 < p < |gs| && p < 256 && HasAnalog(gs[p])
    requires forall q :: 0 < q < p ==> !HasAnalog(gs[q])
    ensures Fold(gs, Unset).offset == p
  {
    FoldOffsetAt(gs, p);
    var pre, post := gs[..p + 1], gs[p + 1..];
    FoldAppend(pre, post, Unset);
    FoldKeepsOffset(post, Fold(pre, Unset));
    assert pre + post == gs;
  }

  /** AnalogOffset is the first analog-capable pin above 0; an analog pin 0
      does not count, because 0 means "unset". */
  lemma ScanAnalogOffset(d: Dialect, gs: seq<seq<Capability>>, p: nat)
    requires Paired(d, gs)
    requires 0 < p < |gs| && p < 256 && HasAnalog(gs[p])
    requires forall q :: 0 < q < p ==> !HasAnalog(gs[q])
    ensures Scan(d, EncodeGroups(gs)).offset == p
  {
    ScanEncoded(d, gs);
    FoldOffset(gs, p);
  }

  /** With no analog pin, or only pin 0 analog, AnalogOffset stays 0. */
  lemma ScanOffsetUnset(d: Dialect, gs: seq<seq<Capability>>)
    requires Paired(d, gs) && |gs| <= 256
    requires forall q :: 0 < q < |gs| ==> !HasAnalog(gs[q])
    ensures Scan(d, EncodeGroups(gs)).offset == 0
  {
    ScanEncoded(d, gs);
    OffsetUnsetPrefix(gs, |gs|);
    assert gs[..|gs|] == gs;
  }

  /** A board of n pins where pins first..n-1 declare one ANALOG pair. */
  function AnalogFrom(n: nat, first: nat): (gs: seq<seq<Capability>>)
    ensures |gs| == n
  {
    seq(n, q => if first <= q then [Capability(MODE_ANALOG, 1)] else [])
  }

  lemma {:induction false} AnalogTotalSnoc(gs: seq<seq<Capability>>, g: seq<Capability>)
    ensures AnalogTotal(gs + [g]) == AnalogTotal(gs) + AnalogModes(g)
  {
    if gs == [] {
      assert gs + [g] == [g];
    } else {
      assert (gs + [g])[0] == gs[0];
      assert (gs + [g])[1..] == gs[1..] + [g];
      AnalogTotalSnoc(gs[1..], g);
    }
  }

  lemma {:induction false} AnalogFromTotal(n: nat, first: nat)
    ensures AnalogTotal(AnalogFrom(n, first)) == if first <= n then n - first else 0
  {
    if n > 0 {
      AnalogFromTotal(n - 1, first);
      var last := AnalogFrom(n, first)[n - 1];
      assert AnalogFrom(n, first) == AnalogFrom(n - 1, first) + [last];
      AnalogTotalSnoc(AnalogFrom(n - 1, first), last);
    }
  }

  /** A board of n pins, analog from pin `first` on (the shape of the
      analog-count and analog-offset scenarios): n pins, n - first analog
      pins, offset `first`; when every pin is analog the offset is pin 1. */
  lemma AnalogBoard(d: Dialect, n: nat, first: nat)
    requires first <= n < 256
    ensures Scan(d, EncodeGroups(AnalogFrom(n, first))).total == n
    ensures Scan(d, EncodeGroups(AnalogFrom(n, first))).analog == n - first
    ensures 0 < first < n ==> Scan(d, EncodeGroups(AnalogFrom(n, first))).offset == first
    ensures first == 0 && 1 < n ==> Scan(d, EncodeGroups(AnalogFrom(n, first))).offset == 1
    ensures first == n ==> Scan(d, EncodeGroups(AnalogFrom(n, first))).offset == 0
  {
    var gs := AnalogFrom(n, first);
    AnalogFromShape(d, n, first);
    ScanCountsPins(d, gs);
    AnalogFromTotal(n, first);
    ScanCountsAnalog(d, gs);
    if 0 < first < n {
      ScanAnalogOffset(d, gs, first);
    } else if first == 0 && 1 < n {
      ScanAnalogOffset(d, gs, 1);
    } else if first == n {
      ScanOffsetUnset(d, gs);
    }
  }

  /** The board of `AnalogBoard` is well formed, and pin q has an ANALOG mode
      exactly when q >= first. */
  lemma AnalogFromShape(d: Dialect, n: nat, first: nat)
    ensures var gs := AnalogFrom(n, first);
            Paired(d, gs) && forall q :: 0 <= q < n ==> (HasAnalog(gs[q]) <==> first <= q)
  {
    var gs := AnalogFrom(n, first);
    forall q | 0 <= q < n && first <= q
      ensures HasAnalog(gs[q])
    {
      assert gs[q][0].mode == MODE_ANALOG;
    }
  }

  /** Pins 0 and 1 analog: the offset lands on pin 1, not on pin 0. */
  lemma AnalogPinZeroSkipped(d: Dialect, gs: seq<seq<Capability>>)
    requires Paired(d, gs) && 2 <= |gs| && HasAnalog(gs[0]) && HasAnalog(gs[1])
    ensures Scan(d, EncodeGroups(gs)).offset == 1
  {
    ScanAnalogOffset(d, gs, 1);
  }

  // ---------------------------------------------------------------------
  // Desynchronisation of the as-written copies

  /** Hardware-profile copy: an unrecognised mode code (7, say) consumes one
      byte, so its resolution byte 1 is read as OUTPUT, whose pair swallows
      the first group's marker: two pins are reported as one. */
  lemma ProfileScanDesync(pullup: Byte)
    requires DialectValid(ProfileDialect(pullup)) && pullup != 7
    ensures EncodeGroups([[Capability(7, 1)], []]) == [7, 1, END_OF_PIN, END_OF_PIN]
    ensures Scan(ProfileDialect(pullup), [7, 1, END_OF_PIN, END_OF_PIN]).total == 1
  {
    var data: seq<Byte> := [7, 1, END_OF_PIN, END_OF_PIN];
    var d := ProfileDialect(pullup);
    assert PinBytes([Capability(7, 1)]) == [7, 1] + PinBytes([]);
    assert Advance(d, 7) == 1 && Advance(d, 1) == 2;
    assert Group(d, data, 3, Unset) == (3, Unset);
    assert Group(d, data, 1, Unset) == (3, Unset);
    assert Group(d, data, 0, Unset) == (3, Unset);
    assert Pins(d, data, 4, Counts(1, 0, 0)) == Counts(1, 0, 0);
  }

  /** Remote-device copy: INPUT consumes four bytes, so a pin declaring
      INPUT swallows its own marker and the next group. */
  lemma DeviceScanDesync()
    ensures EncodeGroups([[Capability(MODE_INPUT, 1)], []]) == [MODE_INPUT, 1, END_OF_PIN, END_OF_PIN]
    ensures Scan(DeviceDialect, [MODE_INPUT, 1, END_OF_PIN, END_OF_PIN]).total == 1
  {
    var data: seq<Byte> := [MODE_INPUT, 1, END_OF_PIN, END_OF_PIN];
    assert PinBytes([Capability(MODE_INPUT, 1)]) == [MODE_INPUT, 1] + PinBytes([]);
    assert EncodeGroups([[]]) == [END_OF_PIN];
    assert Group(DeviceDialect, data, 4, Unset) == (4, Unset);
    assert Group(DeviceDialect, data, 0, Unset) == (4, Unset);
    assert Pins(DeviceDialect, data, 5, Counts(1, 0, 0)) == Counts(1, 0, 0);
  }

  /** The corrected scan reads every mode as a pair, so every payload whose
      mode codes avoid the marker reports one pin per group. */
  lemma PairScanCountsPins(gs: seq<seq<Capability>>)
    requires forall p, k :: 0 <= p < |gs| && 0 <= k < |gs[p]| ==> gs[p][k].mode != END_OF_PIN
    ensures Scan(PairDialect, EncodeGroups(gs)).total == |gs| % 256
    ensures Scan(PairDialect, EncodeGroups(gs)).analog == AnalogTotal(gs) % 256
  {
    ScanCountsPins(PairDialect, gs);
    ScanCountsAnalog(PairDialect, gs);
  }
}
