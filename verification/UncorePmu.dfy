/** One uncore PMU box: UncorePMU's unit control protocol and PCM::program, run against hardware
    whose counters advance at any time unless their box is frozen. */
module UncorePmu {
  import opened Options

  /** SPR, EMR, GNR, GNR_D, GRR and SRF encode the unit control register differently. */
  datatype Family = SprLike | Default

  const UNC_PMON_UNIT_CTL_RST_CONTROL: bv32 := 0x1
  const UNC_PMON_UNIT_CTL_RST_COUNTERS: bv32 := 0x2
  const UNC_PMON_UNIT_CTL_FRZ: bv32 := 0x100
  const UNC_PMON_UNIT_CTL_FRZ_EN: bv32 := 0x1_0000
  const UNC_PMON_UNIT_CTL_RSV: bv32 := 0x3_0000
  const UNC_PMON_UNIT_CTL_VALID_BITS_MASK: bv32 := 0x1_FFFF
  const SPR_UNC_PMON_UNIT_CTL_FRZ: bv32 := 0x1
  const SPR_UNC_PMON_UNIT_CTL_RST_CONTROL: bv32 := 0x100
  const SPR_UNC_PMON_UNIT_CTL_RST_COUNTERS: bv32 := 0x200
  const MC_CH_PCI_PMON_CTL_EN: bv64 := 0x40_0000

  // ---------------------------------------------------------------------------------------
  // The hardware

  /** A box: its unit control register, counter controls and counters. `stuck` is what an absent
      or disabled box returns when the unit control is read back. `freezes` counts how often the
      box stopped counting; `frozenAt` are its counters when it last did (or was reset while
      stopped). */
  datatype Box = Box(
    unitControl: bv32, stuck: Option<bv32>, controls: seq<bv64>, counters: seq<nat>,
    frozenAt: seq<nat>, freezes: nat)

  /** The freeze bit stops the counters; on the default families only while freezing is enabled. */
  predicate Freezes(family: Family, control: bv32) {
    match family
    case SprLike => control & SPR_UNC_PMON_UNIT_CTL_FRZ != 0
    case Default => control & UNC_PMON_UNIT_CTL_FRZ != 0 && control & UNC_PMON_UNIT_CTL_FRZ_EN != 0
  }

  predicate ResetsControls(family: Family, value: bv32) {
    match family
    case SprLike => value & SPR_UNC_PMON_UNIT_CTL_RST_CONTROL != 0
    case Default => value & UNC_PMON_UNIT_CTL_RST_CONTROL != 0
  }

  predicate ResetsCounters(family: Family, value: bv32) {
    match family
    case SprLike => value & SPR_UNC_PMON_UNIT_CTL_RST_COUNTERS != 0
    case Default => value & UNC_PMON_UNIT_CTL_RST_COUNTERS != 0
  }

  predicate Frozen(family: Family, box: Box) {
    Freezes(family, box.unitControl)
  }

  function Zeros<T>(n: nat, zero: T): seq<T> {
    seq(n, i => zero)
  }

  /** What a write of the unit control register does to a box. */
  function Written(family: Family, box: Box, value: bv32): Box {
    var controls := if ResetsControls(family, value) then Zeros(|box.controls|, 0) else box.controls;
    var counters := if ResetsCounters(family, value) then Zeros(|box.counters|, 0) else box.counters;
    var stops := !Frozen(family, box) && Freezes(family, value);
    Box(value, box.stuck, controls, counters,
        if Freezes(family, value) && (stops || ResetsCounters(family, value)) then counters else box.frozenAt,
        if stops then box.freezes + 1 else box.freezes)
  }

  /** Time passes: a frozen box keeps its counters, a running one may count any events. */
  predicate TickedBox(family: Family, before: Box, after: Box) {
    && after == before.(counters := after.counters)
    && |after.counters| == |before.counters|
    && (Frozen(family, before) ==> after.counters == before.counters)
    && (forall i :: 0 <= i < |before.counters| ==> before.counters[i] <= after.counters[i])
  }

  predicate Ticked(family: Family, before: seq<Box>, after: seq<Box>) {
    |after| == |before| && forall b :: 0 <= b < |before| ==> TickedBox(family, before[b], after[b])
  }

  /** Ticked, except that box b is left to the caller to describe. */
  predicate TickedExcept(family: Family, before: seq<Box>, after: seq<Box>, b: nat) {
    |after| == |before| && forall i :: 0 <= i < |before| && i != b ==> TickedBox(family, before[i], after[i])
  }

  lemma TickedExceptTransitive(family: Family, x: seq<Box>, y: seq<Box>, z: seq<Box>, b: nat)
    requires TickedExcept(family, x, y, b) && TickedExcept(family, y, z, b)
    ensures TickedExcept(family, x, z, b)
  {
    forall i | 0 <= i < |x| && i != b ensures TickedBox(family, x[i], z[i]) {
      assert TickedBox(family, x[i], y[i]) && TickedBox(family, y[i], z[i]);
    }
  }

  /** A stopped box still holds the counters it stopped with. */
  predicate Consistent(family: Family, box: Box) {
    Frozen(family, box) ==> box.counters == box.frozenAt
  }

  predicate AllConsistent(family: Family, boxes: seq<Box>) {
    forall b :: 0 <= b < |boxes| ==> Consistent(family, boxes[b])
  }

  predicate NoLess(a: seq<nat>, b: seq<nat>) {
    |a| == |b| && forall i :: 0 <= i < |a| ==> a[i] <= b[i]
  }

  /** A box before and after its unit control register was written, with time passing before the
      write. */
  predicate AfterWrite(family: Family, before: Box, after: Box, value: bv32) {
    && after.unitControl == value && after.stuck == before.stuck
    && after.controls == (if ResetsControls(family, value) then Zeros(|before.controls|, 0) else before.controls)
    && (if ResetsCounters(family, value) then after.counters == Zeros(|before.counters|, 0)
        else NoLess(before.counters, after.counters) &&
             (Frozen(family, before) ==> after.counters == before.counters))
    && after.freezes == before.freezes + (if Freezes(family, value) && !Frozen(family, before) then 1 else 0)
    && (if Freezes(family, value) then !Frozen(family, before) ==> after.frozenAt == after.counters
        else after.frozenAt == before.frozenAt)
  }

  /** The register accesses of the driver; time passes before each of them. */
  class Hardware {
    const family: Family
    var boxes: seq<Box>
    /** How many counter control registers were written while their box was counting. */
    ghost var liveWrites: nat

    constructor (family: Family, boxes: seq<Box>)
      ensures this.family == family && this.boxes == boxes && liveWrites == 0
    {
      this.family := family;
      this.boxes := boxes;
      liveWrites := 0;
    }

    method Tick()
      modifies this`boxes
      ensures Ticked(family, old(boxes), boxes)
    {
      var next: seq<Box> := *;
      if Ticked(family, boxes, next) {
        boxes := next;
      }
    }

    method WriteUnitControl(b: nat, value: bv32)
      requires b < |boxes|
      modifies this`boxes
      ensures TickedExcept(family, old(boxes), boxes, b)
      ensures AfterWrite(family, old(boxes)[b], boxes[b], value)
      ensures AllConsistent(family, old(boxes)) ==> AllConsistent(family, boxes)
    {
      Tick();
      boxes := boxes[b := Written(family, boxes[b], value)];
    }

    method ReadUnitControl(b: nat) returns (value: bv32)
      requires b < |boxes|
      modifies this`boxes
      ensures TickedExcept(family, old(boxes), boxes, b) && TickedBox(family, old(boxes)[b], boxes[b])
      ensures AllConsistent(family, old(boxes)) ==> AllConsistent(family, boxes)
      ensures value == if boxes[b].stuck.Some? then boxes[b].stuck.value else boxes[b].unitControl
    {
      Tick();
      value := if boxes[b].stuck.Some? then boxes[b].stuck.value else boxes[b].unitControl;
    }

    method WriteControl(b: nat, c: nat, value: bv64)
      requires b < |boxes| && c < |boxes[b].controls|
      modifies this
      ensures TickedExcept(family, old(boxes), boxes, b)
      ensures TickedBox(family, old(boxes)[b], boxes[b].(controls := old(boxes)[b].controls))
      ensures boxes[b].controls == old(boxes)[b].controls[c := value]
      ensures AllConsistent(family, old(boxes)) ==> AllConsistent(family, boxes)
      ensures liveWrites == old(liveWrites) + if Frozen(family, old(boxes)[b]) then 0 else 1
    {
      Tick();
      if !Frozen(family, boxes[b]) {
        liveWrites := liveWrites + 1;
      }
      boxes := boxes[b := boxes[b].(controls := boxes[b].controls[c := value])];
    }

    method ReadCounter(b: nat, c: nat) returns (value: nat)
      requires b < |boxes| && c < |boxes[b].counters|
      modifies this`boxes
      ensures Ticked(family, old(boxes), boxes)
      ensures value == boxes[b].counters[c]
    {
      Tick();
      value := boxes[b].counters[c];
    }
  }

  // ---------------------------------------------------------------------------------------
  // One box

  /** An UncorePMU: the box its registers belong to, whether unitControl is non-null, which
      counterControl registers are non-null, and the size of counterValue. The counters of the box are
      those of counterValue and, after them, the fixed counter if it has one. */
  datatype Pmu = Pmu(box: nat, valid: bool, controlPresent: seq<bool>, numCounters: nat)

  predicate Fits(pmu: Pmu, boxes: seq<Box>) {
    pmu.box < |boxes| && |boxes[pmu.box].controls| == |pmu.controlPresent|
  }

  lemma AddFreezeSet(extra: bv32)
    requires extra & UNC_PMON_UNIT_CTL_FRZ != 0
    ensures (extra + UNC_PMON_UNIT_CTL_FRZ) & UNC_PMON_UNIT_CTL_FRZ == 0
  {
    assert extra & 0x100 == 0x100;
    assert (extra + 0x100) & 0x100 == 0;
  }

  lemma AddFreezeClear(extra: bv32)
    requires extra & UNC_PMON_UNIT_CTL_FRZ == 0
    ensures extra + UNC_PMON_UNIT_CTL_FRZ == extra | UNC_PMON_UNIT_CTL_FRZ
  {
    assert extra + 0x100 == extra | 0x100;
  }

  /** For every value of extra: freeze stops a default-family box and unfreeze restarts it if and
      only if the freeze bit of extra is clear and its freeze-enable bit is set. Both constants
      that the callers pass meet the condition. */
  lemma FreezeBits(extra: bv32)
    ensures Freezes(Default, extra + UNC_PMON_UNIT_CTL_FRZ) && !Freezes(Default, extra)
            <==> extra & UNC_PMON_UNIT_CTL_FRZ == 0 && extra & UNC_PMON_UNIT_CTL_FRZ_EN != 0
  {
    if extra & UNC_PMON_UNIT_CTL_FRZ == 0 {
      AddFreezeClear(extra);
    } else {
      AddFreezeSet(extra);
    }
  }

  /** The values of extra for which the unit control encoding works. */
  predicate GoodExtra(extra: bv32) {
    extra & 0x1_0103 == UNC_PMON_UNIT_CTL_FRZ_EN
  }

  /** The newer families ignore extra. */
  predicate ExtraOk(family: Family, extra: bv32) {
    family.SprLike? || GoodExtra(extra)
  }

  lemma GoodExtraBits(extra: bv32)
    requires GoodExtra(extra)
    ensures !Freezes(Default, extra) && Freezes(Default, extra + UNC_PMON_UNIT_CTL_FRZ)
    ensures !ResetsControls(Default, extra) && !ResetsCounters(Default, extra)
    ensures !ResetsControls(Default, extra + UNC_PMON_UNIT_CTL_FRZ)
    ensures !ResetsCounters(Default, extra + UNC_PMON_UNIT_CTL_FRZ)
    ensures Freezes(Default, extra + UNC_PMON_UNIT_CTL_FRZ + UNC_PMON_UNIT_CTL_RST_COUNTERS)
    ensures ResetsCounters(Default, extra + UNC_PMON_UNIT_CTL_FRZ + UNC_PMON_UNIT_CTL_RST_COUNTERS)
    ensures !ResetsControls(Default, extra + UNC_PMON_UNIT_CTL_FRZ + UNC_PMON_UNIT_CTL_RST_COUNTERS)
  {
    assert extra + 0x100 == extra | 0x100;
    assert extra + 0x100 + 2 == extra | 0x102;
  }

  lemma CallersPassGoodExtra()
    ensures GoodExtra(UNC_PMON_UNIT_CTL_FRZ_EN) && GoodExtra(UNC_PMON_UNIT_CTL_RSV)
  {
  }

  function FreezeValue(family: Family, extra: bv32): bv32 {
    match family
    case SprLike => SPR_UNC_PMON_UNIT_CTL_FRZ
    case Default => extra + UNC_PMON_UNIT_CTL_FRZ
  }

  function UnfreezeValue(family: Family, extra: bv32): bv32 {
    match family
    case SprLike => 0
    case Default => extra
  }

  lemma ControlValues(family: Family, extra: bv32)
    requires ExtraOk(family, extra)
    ensures Freezes(family, FreezeValue(family, extra)) && !Freezes(family, UnfreezeValue(family, extra))
    ensures !ResetsControls(family, FreezeValue(family, extra)) && !ResetsCounters(family, FreezeValue(family, extra))
    ensures !ResetsControls(family, UnfreezeValue(family, extra))
    ensures !ResetsCounters(family, UnfreezeValue(family, extra))
  {
    if family.Default? {
      GoodExtraBits(extra);
    }
  }

  /** From `before` to `after` the box was frozen, once if it was running, and has kept the counters
      of that moment. */
  predicate FrozenBy(family: Family, before: Box, after: Box) {
    && Frozen(family, after) && after.counters == after.frozenAt
    && after.stuck == before.stuck && after.controls == before.controls
    && (if Frozen(family, before) then after.counters == before.counters && after.freezes == before.freezes
        else NoLess(before.counters, after.counters) && after.freezes == before.freezes + 1)
  }

  /** From `before` to `after` the box was released and may have counted on. */
  predicate ReleasedBy(family: Family, before: Box, after: Box) {
    && !Frozen(family, after)
    && after.stuck == before.stuck && after.controls == before.controls
    && after.freezes == before.freezes && after.frozenAt == before.frozenAt
    && NoLess(before.counters, after.counters)
  }

  method Freeze(hw: Hardware, pmu: Pmu, extra: bv32)
    requires pmu.valid && pmu.box < |hw.boxes| && ExtraOk(hw.family, extra)
    requires AllConsistent(hw.family, hw.boxes)
    modifies hw`boxes
    ensures TickedExcept(hw.family, old(hw.boxes), hw.boxes, pmu.box)
    ensures FrozenBy(hw.family, old(hw.boxes)[pmu.box], hw.boxes[pmu.box])
    ensures hw.boxes[pmu.box].unitControl == FreezeValue(hw.family, extra)
    ensures AllConsistent(hw.family, hw.boxes)
  {
    ControlValues(hw.family, extra);
    match hw.family
    case SprLike => hw.WriteUnitControl(pmu.box, SPR_UNC_PMON_UNIT_CTL_FRZ);
    case Default => hw.WriteUnitControl(pmu.box, extra + UNC_PMON_UNIT_CTL_FRZ);
  }

  method Unfreeze(hw: Hardware, pmu: Pmu, extra: bv32)
    requires pmu.valid && pmu.box < |hw.boxes| && ExtraOk(hw.family, extra)
    requires AllConsistent(hw.family, hw.boxes)
    modifies hw`boxes
    ensures TickedExcept(hw.family, old(hw.boxes), hw.boxes, pmu.box)
    ensures ReleasedBy(hw.family, old(hw.boxes)[pmu.box], hw.boxes[pmu.box])
    ensures hw.boxes[pmu.box].unitControl == UnfreezeValue(hw.family, extra)
    ensures AllConsistent(hw.family, hw.boxes)
  {
    ControlValues(hw.family, extra);
    match hw.family
    case SprLike => hw.WriteUnitControl(pmu.box, 0);
    case Default => hw.WriteUnitControl(pmu.box, extra);
  }

  function ValidBits(a: bv32): bv32 {
    a & UNC_PMON_UNIT_CTL_VALID_BITS_MASK
  }

  predicate ValidBitsAgree(a: bv32, b: bv32) {
    ValidBits(a) == ValidBits(b)
  }

  /** What a check of the unit control register sees: a working box returns what was written, and
      the newer families are not checked. */
  predicate ReadsBack(family: Family, box: Box, extra: bv32) {
    family.SprLike? || ValidBitsAgree(extra, if box.stuck.Some? then box.stuck.value else extra)
  }

  /** The valid bits are the low 17 bits. */
  lemma ValidBitsAreLow(a: bv32)
    ensures ValidBits(a) < 0x2_0000 && ValidBits(a) << 15 == a << 15
  {
  }

  /** A box fails the check if and only if it is of the default families and absent, and its valid bits do
      not happen to read as they were written. */
  lemma ReadsBackBits(family: Family, box: Box, extra: bv32)
    ensures ReadsBack(family, box, extra) <==>
            family.SprLike? || box.stuck.None? || ValidBits(extra) == ValidBits(box.stuck.value)
  {
    hide ValidBits;
  }

  /** The freeze-enable write and the read-back of initFreeze on the default families. */
  method EnableAndCheck(hw: Hardware, b: nat, extra: bv32) returns (matches: bool)
    requires b < |hw.boxes| && hw.family.Default? && AllConsistent(hw.family, hw.boxes)
    modifies hw`boxes
    ensures AllConsistent(hw.family, hw.boxes)
    ensures TickedExcept(hw.family, old(hw.boxes), hw.boxes, b)
    ensures matches == ReadsBack(hw.family, old(hw.boxes)[b], extra)
    ensures hw.boxes[b].unitControl == extra && hw.boxes[b].stuck == old(hw.boxes)[b].stuck
    ensures |hw.boxes[b].counters| == |old(hw.boxes)[b].counters|
    ensures hw.boxes[b].controls ==
            if ResetsControls(hw.family, extra) then Zeros(|old(hw.boxes)[b].controls|, 0)
            else old(hw.boxes)[b].controls
  {
    hide Freezes, ResetsControls, ResetsCounters, TickedExcept, AllConsistent, ValidBits;
    ghost var start := hw.boxes;
    hw.WriteUnitControl(b, extra);
    ghost var mid := hw.boxes;
    var value := hw.ReadUnitControl(b);
    TickedExceptTransitive(hw.family, start, mid, hw.boxes, b);
    matches := ValidBitsAgree(extra, value);
  }

  /** UncorePMU::initFreeze; check is whether a message for failed read-back was passed. */
  method InitFreeze(hw: Hardware, pmu: Pmu, extra: bv32, check: bool) returns (result: Pmu, ok: bool)
    requires pmu.box < |hw.boxes| && ExtraOk(hw.family, extra) && AllConsistent(hw.family, hw.boxes)
    modifies hw`boxes
    ensures AllConsistent(hw.family, hw.boxes)
    ensures !pmu.valid ==> ok && result == pmu && hw.boxes == old(hw.boxes)
    ensures pmu.valid ==>
              && ok == (!check || ReadsBack(hw.family, old(hw.boxes)[pmu.box], extra))
              && result == pmu.(valid := ok)
              && TickedExcept(hw.family, old(hw.boxes), hw.boxes, pmu.box)
              && hw.boxes[pmu.box].stuck == old(hw.boxes)[pmu.box].stuck
              && |hw.boxes[pmu.box].counters| == |old(hw.boxes)[pmu.box].counters|
              && hw.boxes[pmu.box].controls ==
                   (if hw.family.SprLike? then Zeros(|old(hw.boxes)[pmu.box].controls|, 0)
                    else old(hw.boxes)[pmu.box].controls)
              && Frozen(hw.family, hw.boxes[pmu.box]) == ok
    ensures pmu.valid && ok ==>
              hw.boxes[pmu.box].unitControl ==
              match hw.family
              case SprLike => SPR_UNC_PMON_UNIT_CTL_FRZ + SPR_UNC_PMON_UNIT_CTL_RST_CONTROL
              case Default => extra + UNC_PMON_UNIT_CTL_FRZ
  {
    result, ok := pmu, true;
    if !pmu.valid {
      return;
    }
    if hw.family.Default? {
      GoodExtraBits(extra);
    }
    SprBits();
    hide Freezes, ResetsControls, ResetsCounters, TickedExcept, AllConsistent;
    ghost var start := hw.boxes;
    assert hw.family.SprLike? ==> ReadsBack(hw.family, start[pmu.box], extra);
    hide ReadsBack;
    match hw.family
    case SprLike =>
      hw.WriteUnitControl(pmu.box, SPR_UNC_PMON_UNIT_CTL_FRZ);
      ghost var mid := hw.boxes;
      hw.WriteUnitControl(pmu.box, SPR_UNC_PMON_UNIT_CTL_FRZ + SPR_UNC_PMON_UNIT_CTL_RST_CONTROL);
      TickedExceptTransitive(hw.family, start, mid, hw.boxes, pmu.box);
    case Default =>
      if check {
        var matches := EnableAndCheck(hw, pmu.box, extra);
        if !matches {
          result, ok := pmu.(valid := false), false;
          return;
        }
      } else {
        hw.WriteUnitControl(pmu.box, extra);
      }
      ghost var mid := hw.boxes;
      hw.WriteUnitControl(pmu.box, extra + UNC_PMON_UNIT_CTL_FRZ);
      TickedExceptTransitive(hw.family, start, mid, hw.boxes, pmu.box);
  }

  lemma SprBits()
    ensures var freezeAndResetControls := SPR_UNC_PMON_UNIT_CTL_FRZ + SPR_UNC_PMON_UNIT_CTL_RST_CONTROL;
            Freezes(SprLike, freezeAndResetControls) && ResetsControls(SprLike, freezeAndResetControls)
            && !ResetsCounters(SprLike, freezeAndResetControls)
    ensures var freezeAndResetCounters := SPR_UNC_PMON_UNIT_CTL_FRZ + SPR_UNC_PMON_UNIT_CTL_RST_COUNTERS;
            Freezes(SprLike, freezeAndResetCounters) && ResetsCounters(SprLike, freezeAndResetCounters)
            && !ResetsControls(SprLike, freezeAndResetCounters)
  {
  }

  method ResetUnfreeze(hw: Hardware, pmu: Pmu, extra: bv32)
    requires pmu.valid && pmu.box < |hw.boxes| && ExtraOk(hw.family, extra)
    requires AllConsistent(hw.family, hw.boxes)
    modifies hw`boxes
    ensures AllConsistent(hw.family, hw.boxes)
    ensures TickedExcept(hw.family, old(hw.boxes), hw.boxes, pmu.box)
    ensures !Frozen(hw.family, hw.boxes[pmu.box])
    ensures hw.boxes[pmu.box].unitControl == match hw.family case SprLike => 0 case Default => extra
    ensures hw.boxes[pmu.box].stuck == old(hw.boxes)[pmu.box].stuck
    ensures hw.boxes[pmu.box].controls == old(hw.boxes)[pmu.box].controls
    ensures hw.boxes[pmu.box].counters == Zeros(|old(hw.boxes)[pmu.box].counters|, 0)
  {
    if hw.family.Default? {
      GoodExtraBits(extra);
    }
    SprBits();
    ControlValues(hw.family, extra);
    hide Freezes, ResetsControls, ResetsCounters, TickedExcept, AllConsistent;
    ghost var start := hw.boxes;
    ghost var mid;
    match hw.family
    case SprLike =>
      hw.WriteUnitControl(pmu.box, SPR_UNC_PMON_UNIT_CTL_FRZ + SPR_UNC_PMON_UNIT_CTL_RST_COUNTERS);
      mid := hw.boxes;
      hw.WriteUnitControl(pmu.box, 0);
      TickedExceptTransitive(hw.family, start, mid, hw.boxes, pmu.box);
    case Default =>
      hw.WriteUnitControl(pmu.box, extra + UNC_PMON_UNIT_CTL_FRZ + UNC_PMON_UNIT_CTL_RST_COUNTERS);
      mid := hw.boxes;
      hw.WriteUnitControl(pmu.box, extra);
      TickedExceptTransitive(hw.family, start, mid, hw.boxes, pmu.box);
  }

  /** The control registers after the first n events have been programmed: each register that is there and
      has an event holds it, with the enable bit on the default families. */
  predicate ControlsSet(family: Family, before: seq<bv64>, after: seq<bv64>, present: seq<bool>, events: seq<bv64>,
                        n: nat)
    requires |before| == |present| && n <= |events|
  {
    && |after| == |before|
    && forall c :: 0 <= c < |after| ==>
         after[c] == if c < n && present[c] then
                       match family case SprLike => events[c] case Default => 0x40_0000 | events[c]
                     else before[c]
  }

  lemma TickedExceptReflexive(family: Family, x: seq<Box>, b: nat)
    ensures TickedExcept(family, x, x, b)
  {
  }

  /** The writes of one counter control register in PCM::program. */
  method ProgramControl(hw: Hardware, b: nat, c: nat, event: bv64, ghost start: seq<Box>)
    requires b < |hw.boxes| && c < |hw.boxes[b].controls| && AllConsistent(hw.family, hw.boxes)
    requires TickedExcept(hw.family, start, hw.boxes, b)
    modifies hw
    ensures AllConsistent(hw.family, hw.boxes)
    ensures TickedExcept(hw.family, start, hw.boxes, b)
    ensures hw.boxes[b].stuck == old(hw.boxes)[b].stuck && |hw.boxes[b].counters| == |old(hw.boxes)[b].counters|
    ensures hw.boxes[b].unitControl == old(hw.boxes)[b].unitControl
    ensures hw.boxes[b].controls ==
            old(hw.boxes)[b].controls[c := match hw.family case SprLike => event case Default => 0x40_0000 | event]
    ensures Frozen(hw.family, old(hw.boxes)[b]) ==> hw.liveWrites == old(hw.liveWrites)
  {
    hide Freezes, TickedExcept, AllConsistent;
    ghost var mid := hw.boxes;
    match hw.family
    case SprLike =>
      hw.WriteControl(b, c, event);
      TickedExceptTransitive(hw.family, start, mid, hw.boxes, b);
    case Default =>
      hw.WriteControl(b, c, MC_CH_PCI_PMON_CTL_EN);
      TickedExceptTransitive(hw.family, start, mid, hw.boxes, b);
      mid := hw.boxes;
      hw.WriteControl(b, c, MC_CH_PCI_PMON_CTL_EN | event);
      TickedExceptTransitive(hw.family, start, mid, hw.boxes, b);
  }

  /** PCM::program; no events stands for a null eventsBegin. */
  method Program(hw: Hardware, pmu: Pmu, events: Option<seq<bv64>>, extra: bv32)
    requires Fits(pmu, hw.boxes) && AllConsistent(hw.family, hw.boxes)
    requires extra != 0 ==> pmu.valid && ExtraOk(hw.family, extra)
    modifies hw
    ensures AllConsistent(hw.family, hw.boxes)
    ensures events.None? ==> hw.boxes == old(hw.boxes) && hw.liveWrites == old(hw.liveWrites)
    ensures events.Some? ==>
              && TickedExcept(hw.family, old(hw.boxes), hw.boxes, pmu.box)
              && hw.boxes[pmu.box].stuck == old(hw.boxes)[pmu.box].stuck
              && |hw.boxes[pmu.box].counters| == |old(hw.boxes)[pmu.box].counters|
              && |hw.boxes[pmu.box].controls| == |pmu.controlPresent|
              && (forall c :: 0 <= c < |pmu.controlPresent| ==>
                    hw.boxes[pmu.box].controls[c] ==
                    if c < |events.value| && pmu.controlPresent[c] then
                      match hw.family case SprLike => events.value[c] case Default => 0x40_0000 | events.value[c]
                    else old(hw.boxes)[pmu.box].controls[c])
              && (extra != 0 ==>
                    !Frozen(hw.family, hw.boxes[pmu.box]) && forall i :: 0 <= i < |hw.boxes[pmu.box].counters| ==>
                                                               hw.boxes[pmu.box].counters[i] == 0)
              && (extra != 0 ==>
                    hw.boxes[pmu.box].unitControl == match hw.family case SprLike => 0 case Default => extra)
              && (extra == 0 ==> hw.boxes[pmu.box].unitControl == old(hw.boxes)[pmu.box].unitControl)
              && (extra == 0 ==> Frozen(hw.family, hw.boxes[pmu.box]) == Frozen(hw.family, old(hw.boxes)[pmu.box]))
    ensures Frozen(hw.family, old(hw.boxes)[pmu.box]) ==> hw.liveWrites == old(hw.liveWrites)
  {
    if events.None? {
      return;
    }
    hide Freezes, TickedExcept, AllConsistent;
    ghost var start := hw.boxes;
    ghost var live := hw.liveWrites;
    var b := pmu.box;
    TickedExceptReflexive(hw.family, start, b);
    var c := 0;
    while c < |events.value| && c < |pmu.controlPresent|
      invariant 0 <= c <= |events.value| && c <= |pmu.controlPresent|
      invariant AllConsistent(hw.family, hw.boxes)
      invariant TickedExcept(hw.family, start, hw.boxes, b)
      invariant hw.boxes[b].stuck == start[b].stuck && |hw.boxes[b].counters| == |start[b].counters|
      invariant hw.boxes[b].unitControl == start[b].unitControl
      invariant ControlsSet(hw.family, start[b].controls, hw.boxes[b].controls, pmu.controlPresent, events.value, c)
      invariant Frozen(hw.family, start[b]) ==> hw.liveWrites == live
    {
      if pmu.controlPresent[c] {
        ProgramControl(hw, b, c, events.value[c], start);
      }
      c := c + 1;
    }
    assert ControlsSet(hw.family, start[b].controls, hw.boxes[b].controls, pmu.controlPresent, events.value,
                       |events.value|);
    if extra != 0 {
      ghost var mid := hw.boxes;
      ResetUnfreeze(hw, pmu, extra);
      TickedExceptTransitive(hw.family, start, mid, hw.boxes, b);
    }
  }

  /** A box after initFreeze, which resets the controls on the newer families, and program: counting, with
      the events in place. */
  predicate IsProgrammed(family: Family, before: Box, after: Box, pmu: Pmu, events: seq<bv64>)
    requires |before.controls| == |pmu.controlPresent|
  {
    && !Frozen(family, after)
    && ControlsSet(family, if family.SprLike? then Zeros(|before.controls|, 0) else before.controls, after.controls,
                   pmu.controlPresent, events, |events|)
  }

  /** initFreeze then program, as for every box of programIMC, programEDC, programM2M and programHA:
      no control register is written while the box counts, and the box ends up counting from zero
      with its events in place. */
  method InitAndProgram(hw: Hardware, pmu: Pmu, events: seq<bv64>, extra: bv32)
    requires pmu.valid && Fits(pmu, hw.boxes) && AllConsistent(hw.family, hw.boxes)
    requires extra != 0 && ExtraOk(hw.family, extra)
    modifies hw
    ensures AllConsistent(hw.family, hw.boxes)
    ensures TickedExcept(hw.family, old(hw.boxes), hw.boxes, pmu.box)
    ensures !Frozen(hw.family, hw.boxes[pmu.box])
    ensures |hw.boxes[pmu.box].controls| == |pmu.controlPresent|
    ensures forall c :: 0 <= c < |pmu.controlPresent| ==>
              hw.boxes[pmu.box].controls[c] ==
              match hw.family
              case SprLike => if c < |events| && pmu.controlPresent[c] then events[c] else 0
              case Default =>
                if c < |events| && pmu.controlPresent[c] then 0x40_0000 | events[c]
                else old(hw.boxes)[pmu.box].controls[c]
    ensures |hw.boxes[pmu.box].counters| == |old(hw.boxes)[pmu.box].counters|
    ensures forall i :: 0 <= i < |hw.boxes[pmu.box].counters| ==> hw.boxes[pmu.box].counters[i] == 0
    ensures hw.boxes[pmu.box].unitControl == match hw.family case SprLike => 0 case Default => extra
    ensures hw.liveWrites == old(hw.liveWrites)
  {
    ghost var start := hw.boxes;
    var frozen, ok := InitFreeze(hw, pmu, extra, false);
    ghost var mid := hw.boxes;
    Program(hw, frozen, Some(events), extra);
    TickedExceptTransitive(hw.family, start, mid, hw.boxes, pmu.box);
  }
}
