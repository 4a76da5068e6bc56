/** The packed 64-bit registers: ccr, the IIO counter control in its two layouts, and the filter
    registers of the IDX PMUs, which share one config1 word. */
module ControlRegisters {

  datatype Layout = Skx | Icx

  datatype CcrField = EventSelect | Umask | Reset | Edge | OvEn | Enable | Invert | Thresh | ChMask | FcMask

  /** The bits of a field. */
  function Mask(layout: Layout, f: CcrField): bv64 {
    match f
    case EventSelect => 0xff
    case Umask => 0xff00
    case Reset => 0x2_0000
    case Edge => 0x4_0000
    case OvEn => 0x10_0000
    case Enable => 0x40_0000
    case Invert => 0x80_0000
    case Thresh => 0xf_ff00_0000
    case ChMask => if layout.Skx? then 0xff0_0000_0000 else 0xfff0_0000_0000
    case FcMask => if layout.Skx? then 0x7000_0000_0000 else 0x7_0000_0000_0000
  }

  /** A value shifted to the place of a field, and back. */
  function Up(layout: Layout, f: CcrField, x: bv64): bv64 {
    match f
    case EventSelect => x
    case Umask => x << 8
    case Reset => x << 17
    case Edge => x << 18
    case OvEn => x << 20
    case Enable => x << 22
    case Invert => x << 23
    case Thresh => x << 24
    case ChMask => x << 36
    case FcMask => if layout.Skx? then x << 44 else x << 48
  }

  function Down(layout: Layout, f: CcrField, x: bv64): bv64 {
    match f
    case EventSelect => x
    case Umask => x >> 8
    case Reset => x >> 17
    case Edge => x >> 18
    case OvEn => x >> 20
    case Enable => x >> 22
    case Invert => x >> 23
    case Thresh => x >> 24
    case ChMask => x >> 36
    case FcMask => if layout.Skx? then x >> 44 else x >> 48
  }

  /** A value cut to the width of a field. */
  function Cut(layout: Layout, f: CcrField, x: bv64): bv64 {
    match f
    case EventSelect => x & 0xff
    case Umask => x & 0xff
    case Reset => x & 1
    case Edge => x & 1
    case OvEn => x & 1
    case Enable => x & 1
    case Invert => x & 1
    case Thresh => x & 0xfff
    case ChMask => if layout.Skx? then x & 0xff else x & 0xfff
    case FcMask => x & 7
  }

  /** The bits that belong to no field. */
  function Reserved(layout: Layout): bv64 {
    match layout
    case Skx => 0xffff_8000_0029_0000
    case Icx => 0xfff8_0000_0029_0000
  }

  function ReservedBits(layout: Layout, v: bv64): bv64 {
    Restrict(v, Reserved(layout))
  }

  function Restrict(v: bv64, m: bv64): bv64 {
    v & m
  }

  /** The bits of y in place of those of v under the mask. */
  function Merge(v: bv64, y: bv64, m: bv64): bv64 {
    (v & !m) | (y & m)
  }

  /** Every getter and every setter has this form. */
  function GetField(layout: Layout, v: bv64, f: CcrField): bv64 {
    Down(layout, f, Restrict(v, Mask(layout, f)))
  }

  function SetField(layout: Layout, v: bv64, f: CcrField, x: bv64): bv64 {
    Merge(v, Up(layout, f, x), Mask(layout, f))
  }

  /** The masks of two fields never overlap, and no field reaches into the reserved bits. */
  lemma MasksDisjoint(layout: Layout, f: CcrField, g: CcrField)
    ensures f != g ==> Restrict(Mask(layout, f), Mask(layout, g)) == 0
    ensures Restrict(Mask(layout, f), Reserved(layout)) == 0
  {
  }

  lemma OtherBitsKept(v: bv64, y: bv64, m: bv64, other: bv64)
    requires Restrict(m, other) == 0
    ensures Restrict(Merge(v, y, m), other) == Restrict(v, other)
  {
  }

  lemma OwnBitsSet(v: bv64, y: bv64, m: bv64)
    ensures Restrict(Merge(v, y, m), m) == Restrict(y, m)
  {
  }

  lemma UpDown(layout: Layout, f: CcrField, x: bv64)
    ensures Down(layout, f, Restrict(Up(layout, f, x), Mask(layout, f))) == Cut(layout, f, x)
  {
    match f case EventSelect => case Umask => case Reset => case Edge => case OvEn =>
            case Enable => case Invert => case Thresh => case ChMask => case FcMask =>
  }

  lemma GetAfterSet(layout: Layout, v: bv64, f: CcrField, x: bv64)
    ensures GetField(layout, SetField(layout, v, f, x), f) == Cut(layout, f, x)
  {
    hide Mask, Up, Down, Cut, Restrict, Merge;
    OwnBitsSet(v, Up(layout, f, x), Mask(layout, f));
    UpDown(layout, f, x);
  }

  lemma OthersAfterSet(layout: Layout, v: bv64, f: CcrField, x: bv64, g: CcrField)
    ensures f != g ==> GetField(layout, SetField(layout, v, f, x), g) == GetField(layout, v, g)
    ensures ReservedBits(layout, SetField(layout, v, f, x)) == ReservedBits(layout, v)
  {
    hide Mask, Reserved, Up, Down, Restrict, Merge;
    MasksDisjoint(layout, f, g);
    OtherBitsKept(v, Up(layout, f, x), Mask(layout, f), Reserved(layout));
    if f != g {
      OtherBitsKept(v, Up(layout, f, x), Mask(layout, f), Mask(layout, g));
    }
  }

  lemma DownUp(layout: Layout, f: CcrField, v: bv64)
    ensures Up(layout, f, Down(layout, f, Restrict(v, Mask(layout, f)))) == Restrict(v, Mask(layout, f))
  {
    match f case EventSelect => case Umask => case Reset => case Edge => case OvEn =>
            case Enable => case Invert => case Thresh => case ChMask => case FcMask =>
  }

  /** The fields and the reserved bits cover the whole register. */
  function Joined(layout: Layout, v: bv64): bv64 {
    Restrict(v, Mask(layout, EventSelect)) | Restrict(v, Mask(layout, Umask)) | Restrict(v, Mask(layout, Reset)) |
    Restrict(v, Mask(layout, Edge)) | Restrict(v, Mask(layout, OvEn)) | Restrict(v, Mask(layout, Enable)) |
    Restrict(v, Mask(layout, Invert)) | Restrict(v, Mask(layout, Thresh)) | Restrict(v, Mask(layout, ChMask)) |
    Restrict(v, Mask(layout, FcMask)) | Restrict(v, Reserved(layout))
  }

  lemma NothingElse(layout: Layout, v: bv64)
    ensures Joined(layout, v) == v
  {
  }

  /** The word that the field values and the reserved bits make up: every field at its place. */
  lemma SkxWordOfFields(v: bv64)
    ensures v ==
            GetField(Skx, v, EventSelect) | (GetField(Skx, v, Umask) << 8) | (GetField(Skx, v, Reset) << 17) |
            (GetField(Skx, v, Edge) << 18) | (GetField(Skx, v, OvEn) << 20) | (GetField(Skx, v, Enable) << 22) |
            (GetField(Skx, v, Invert) << 23) | (GetField(Skx, v, Thresh) << 24) | (GetField(Skx, v, ChMask) << 36) |
            (GetField(Skx, v, FcMask) << 44) | (v & 0xffff_8000_0029_0000)
  {
  }

  lemma IcxWordOfFields(v: bv64)
    ensures v ==
            GetField(Icx, v, EventSelect) | (GetField(Icx, v, Umask) << 8) | (GetField(Icx, v, Reset) << 17) |
            (GetField(Icx, v, Edge) << 18) | (GetField(Icx, v, OvEn) << 20) | (GetField(Icx, v, Enable) << 22) |
            (GetField(Icx, v, Invert) << 23) | (GetField(Icx, v, Thresh) << 24) | (GetField(Icx, v, ChMask) << 36) |
            (GetField(Icx, v, FcMask) << 48) | (v & 0xfff8_0000_0029_0000)
  {
  }

  /** So they determine it. */
  lemma FieldsDetermine(layout: Layout, v: bv64, w: bv64)
    requires forall f: CcrField :: GetField(layout, v, f) == GetField(layout, w, f)
    requires ReservedBits(layout, v) == ReservedBits(layout, w)
    ensures v == w
  {
    hide Mask, Up, Down, Reserved, Restrict;
    forall f: CcrField ensures Restrict(v, Mask(layout, f)) == Restrict(w, Mask(layout, f)) {
      DownUp(layout, f, v);
      DownUp(layout, f, w);
      assert GetField(layout, v, f) == GetField(layout, w, f);
    }
    NothingElse(layout, v);
    NothingElse(layout, w);
  }

  datatype Write<F> = Write(field: F, value: bv64)

  /** The register of independent fields that ccr implements. */
  datatype Record = Record(fields: map<CcrField, bv64>, reserved: bv64)

  function Abstract(layout: Layout, v: bv64): Record {
    Record(map f: CcrField | true :: GetField(layout, v, f), ReservedBits(layout, v))
  }

  function SetAbstract(layout: Layout, r: Record, w: Write<CcrField>): Record {
    r.(fields := r.fields[w.field := Cut(layout, w.field, w.value)])
  }

  /** One setter refines an update of one field of the record; the record determines the register. */
  lemma SetRefines(layout: Layout, v: bv64, w: Write<CcrField>)
    ensures Abstract(layout, SetField(layout, v, w.field, w.value)) == SetAbstract(layout, Abstract(layout, v), w)
  {
    hide GetField, SetField, ReservedBits, Cut;
    var n := SetField(layout, v, w.field, w.value);
    GetAfterSet(layout, v, w.field, w.value);
    OthersAfterSet(layout, v, w.field, w.value, w.field);
    forall g: CcrField | g != w.field ensures GetField(layout, n, g) == GetField(layout, v, g) {
      OthersAfterSet(layout, v, w.field, w.value, g);
    }
    assert Abstract(layout, n).fields == SetAbstract(layout, Abstract(layout, v), w).fields;
  }

  lemma AbstractInjective(layout: Layout, v: bv64, w: bv64)
    requires Abstract(layout, v) == Abstract(layout, w)
    ensures v == w
  {
    hide GetField, ReservedBits;
    forall f: CcrField ensures GetField(layout, v, f) == GetField(layout, w, f) {
      assert Abstract(layout, v).fields[f] == Abstract(layout, w).fields[f];
    }
    FieldsDetermine(layout, v, w);
  }

  function SetAll(layout: Layout, v: bv64, ws: seq<Write<CcrField>>): bv64 {
    if ws == [] then v
    else
      var last := ws[|ws| - 1];
      SetField(layout, SetAll(layout, v, ws[..|ws| - 1]), last.field, last.value)
  }

  function SetAllAbstract(layout: Layout, r: Record, ws: seq<Write<CcrField>>): Record {
    if ws == [] then r else SetAbstract(layout, SetAllAbstract(layout, r, ws[..|ws| - 1]), ws[|ws| - 1])
  }

  lemma {:induction false} SetAllRefines(layout: Layout, v: bv64, ws: seq<Write<CcrField>>)
    ensures Abstract(layout, SetAll(layout, v, ws)) == SetAllAbstract(layout, Abstract(layout, v), ws)
  {
    hide Abstract, SetField, SetAbstract;
    if ws != [] {
      SetAllRefines(layout, v, ws[..|ws| - 1]);
      SetRefines(layout, SetAll(layout, v, ws[..|ws| - 1]), ws[|ws| - 1]);
    }
  }

  /** The last value written to f, or `otherwise` if it was not written. */
  function LastValue<F(==)>(ws: seq<Write<F>>, f: F, otherwise: bv64): bv64 {
    if ws == [] then otherwise
    else if ws[|ws| - 1].field == f then ws[|ws| - 1].value
    else LastValue(ws[..|ws| - 1], f, otherwise)
  }

  /** After any setters in any order, each getter returns the last value written to its field, cut to the
      field's width, or the original one; the reserved bits never change. */
  lemma {:induction false} GettersReturnLast(layout: Layout, v: bv64, ws: seq<Write<CcrField>>, f: CcrField)
    ensures GetField(layout, SetAll(layout, v, ws), f) == Cut(layout, f, LastValue(ws, f, GetField(layout, v, f)))
    ensures ReservedBits(layout, SetAll(layout, v, ws)) == ReservedBits(layout, v)
  {
    if ws == [] {
      FieldFits(layout, v, f);
    } else {
      hide GetField, SetField, ReservedBits, Cut;
      var front, last := ws[..|ws| - 1], ws[|ws| - 1];
      GettersReturnLast(layout, v, front, f);
      GetAfterSet(layout, SetAll(layout, v, front), last.field, last.value);
      OthersAfterSet(layout, SetAll(layout, v, front), last.field, last.value, f);
    }
  }

  lemma FieldFits(layout: Layout, v: bv64, f: CcrField)
    ensures Cut(layout, f, GetField(layout, v, f)) == GetField(layout, v, f)
  {
    hide Mask, Up, Down, Cut, Restrict, Merge;
    DownUp(layout, f, v);
    UpDown(layout, f, GetField(layout, v, f));
    AndTwice(v, Mask(layout, f));
  }

  lemma AndTwice(v: bv64, m: bv64)
    ensures Restrict(Restrict(v, m), m) == Restrict(v, m)
  {
  }

  /** ccr holds a reference to a register value that belongs to somebody else. */
  class Register {
    var value: bv64

    constructor (value: bv64)
      ensures this.value == value
    {
      this.value := value;
    }
  }

  class Ccr {
    const ccrValue: Register
    const config: Layout

    constructor (v: Register, layout: Layout)
      ensures ccrValue == v && config == layout
    {
      ccrValue, config := v, layout;
    }

    method Get(f: CcrField) returns (x: bv64)
      ensures x == Abstract(config, ccrValue.value).fields[f]
    {
      x := GetField(config, ccrValue.value, f);
      FieldFits(config, ccrValue.value, f);
    }

    method Set(f: CcrField, x: bv64)
      modifies ccrValue
      ensures Abstract(config, ccrValue.value) ==
              SetAbstract(config, Abstract(config, old(ccrValue.value)), Write(f, x))
    {
      SetRefines(config, ccrValue.value, Write(f, x));
      ccrValue.value := SetField(config, ccrValue.value, f, x);
    }
  }

  // ---------------------------------------------------------------------------------------
  // IDX filters

  datatype IdxFilter = Wq | Tc | PageSize | TransferSize | Engine

  /** The constants that clear a filter's bits are only 60 bits wide. */
  function Clearing(f: IdxFilter): bv64 {
    match f
    case Wq => 0xFFFFFFF00000000
    case Tc => 0xFFFFF00FFFFFFFF
    case PageSize => 0xFFFF0FFFFFFFFFF
    case TransferSize => 0xFF00FFFFFFFFFFF
    case Engine => 0x00FFFFFFFFFFFFF
  }

  function FilterUp(f: IdxFilter, x: bv64): bv64 {
    match f
    case Wq => x & 0xFFFFFFFF
    case Tc => (x & 0xFF) << 32
    case PageSize => (x & 0xF) << 40
    case TransferSize => (x & 0xFF) << 44
    case Engine => (x & 0xFF) << 52
  }

  function Either(a: bv64, b: bv64): bv64 {
    a | b
  }

  function SetFilter(config1: bv64, f: IdxFilter, x: bv64): bv64 {
    Either(Restrict(config1, Clearing(f)), FilterUp(f, x))
  }

  function FilterMask(f: IdxFilter): bv64 {
    match f
    case Wq => 0xFFFF_FFFF
    case Tc => 0xFF_0000_0000
    case PageSize => 0xF00_0000_0000
    case TransferSize => 0xF_F000_0000_0000
    case Engine => 0xFF0_0000_0000_0000
  }

  function FilterDown(f: IdxFilter, x: bv64): bv64 {
    match f
    case Wq => x
    case Tc => x >> 32
    case PageSize => x >> 40
    case TransferSize => x >> 44
    case Engine => x >> 52
  }

  /** The field that the hardware takes from config1. */
  function GetFilter(config1: bv64, f: IdxFilter): bv64 {
    FilterDown(f, Restrict(config1, FilterMask(f)))
  }

  function CutFilter(f: IdxFilter, x: bv64): bv64 {
    match f
    case Wq => x & 0xFFFFFFFF
    case Tc => x & 0xFF
    case PageSize => x & 0xF
    case TransferSize => x & 0xFF
    case Engine => x & 0xFF
  }

  predicate TopBitsClear(config1: bv64) {
    config1 >> 60 == 0
  }

  function Pack(wq: bv64, tc: bv64, pageSize: bv64, transferSize: bv64, engine: bv64): bv64 {
    (wq & 0xffff_ffff) | ((tc & 0xff) << 32) | ((pageSize & 0xf) << 40) |
    ((transferSize & 0xff) << 44) | ((engine & 0xff) << 52)
  }

  lemma ClearingKeepsOthers(f: IdxFilter, g: IdxFilter)
    ensures Restrict(Clearing(f), FilterMask(g)) == if f == g then 0 else FilterMask(g)
    ensures TopBitsClear(Clearing(f))
  {
  }

  lemma UpStaysInField(f: IdxFilter, x: bv64, g: IdxFilter)
    ensures f != g ==> Restrict(FilterUp(f, x), FilterMask(g)) == 0
    ensures TopBitsClear(FilterUp(f, x))
  {
    match f case Wq => case Tc => case PageSize => case TransferSize => case Engine =>
  }

  lemma UpIsInField(f: IdxFilter, x: bv64)
    ensures Restrict(FilterUp(f, x), FilterMask(f)) == FilterUp(f, x)
  {
    match f case Wq => case Tc => case PageSize => case TransferSize => case Engine =>
  }

  lemma UpComesDown(f: IdxFilter, x: bv64)
    ensures FilterDown(f, FilterUp(f, x)) == CutFilter(f, x)
  {
    match f case Wq => case Tc => case PageSize => case TransferSize => case Engine =>
  }

  lemma RightOnly(a: bv64, b: bv64, m: bv64)
    requires Restrict(a, m) == 0
    ensures Restrict(Either(a, b), m) == Restrict(b, m)
  {
  }

  lemma LeftOnly(a: bv64, b: bv64, m: bv64)
    requires Restrict(b, m) == 0
    ensures Restrict(Either(a, b), m) == Restrict(a, m)
  {
  }

  lemma RestrictTwice(c: bv64, clearing: bv64, m: bv64)
    ensures Restrict(Restrict(c, clearing), m) == Restrict(c, Restrict(clearing, m))
    ensures Restrict(c, 0) == 0
  {
  }

  lemma OtherFilterKept(c: bv64, clearing: bv64, up: bv64, m: bv64)
    requires Restrict(clearing, m) == m && Restrict(up, m) == 0
    ensures Restrict(Either(Restrict(c, clearing), up), m) == Restrict(c, m)
  {
    hide Restrict, Either;
    LeftOnly(Restrict(c, clearing), up, m);
    RestrictTwice(c, clearing, m);
  }

  lemma OwnFilterReplaced(c: bv64, clearing: bv64, up: bv64, m: bv64)
    requires Restrict(clearing, m) == 0
    ensures Restrict(Either(Restrict(c, clearing), up), m) == Restrict(up, m)
  {
    hide Restrict, Either;
    RestrictTwice(c, clearing, m);
    RightOnly(Restrict(c, clearing), up, m);
  }

  lemma TopBitsDropped(c: bv64, clearing: bv64, up: bv64)
    requires TopBitsClear(clearing) && TopBitsClear(up)
    ensures TopBitsClear(Either(Restrict(c, clearing), up))
  {
  }

  lemma FilterAfterSet(config1: bv64, f: IdxFilter, x: bv64, g: IdxFilter)
    ensures GetFilter(SetFilter(config1, f, x), f) == CutFilter(f, x)
    ensures f != g ==> GetFilter(SetFilter(config1, f, x), g) == GetFilter(config1, g)
    ensures TopBitsClear(SetFilter(config1, f, x))
  {
    hide Clearing, FilterUp, FilterDown, FilterMask, Restrict, CutFilter, TopBitsClear, Either;
    ClearingKeepsOthers(f, f);
    ClearingKeepsOthers(f, g);
    UpStaysInField(f, x, g);
    UpIsInField(f, x);
    UpComesDown(f, x);
    OwnFilterReplaced(config1, Clearing(f), FilterUp(f, x), FilterMask(f));
    TopBitsDropped(config1, Clearing(f), FilterUp(f, x));
    if f != g {
      OtherFilterKept(config1, Clearing(f), FilterUp(f, x), FilterMask(g));
    }
  }

  lemma PackOfFilters(config1: bv64)
    requires TopBitsClear(config1)
    ensures config1 == Pack(GetFilter(config1, Wq), GetFilter(config1, Tc), GetFilter(config1, PageSize),
                            GetFilter(config1, TransferSize), GetFilter(config1, Engine))
  {
  }

  function SetFilters(config1: bv64, ws: seq<Write<IdxFilter>>): bv64 {
    if ws == [] then config1
    else
      var last := ws[|ws| - 1];
      SetFilter(SetFilters(config1, ws[..|ws| - 1]), last.field, last.value)
  }

  lemma {:induction false} FiltersReturnLast(config1: bv64, ws: seq<Write<IdxFilter>>, f: IdxFilter)
    ensures GetFilter(SetFilters(config1, ws), f) == CutFilter(f, LastValue(ws, f, GetFilter(config1, f)))
    ensures ws != [] ==> TopBitsClear(SetFilters(config1, ws))
  {
    if ws == [] {
      FilterFits(config1, f);
    } else {
      hide GetFilter, SetFilter, CutFilter, TopBitsClear;
      var front, last := ws[..|ws| - 1], ws[|ws| - 1];
      FiltersReturnLast(config1, front, f);
      FilterAfterSet(SetFilters(config1, front), last.field, last.value, f);
    }
  }

  lemma FilterFits(config1: bv64, f: IdxFilter)
    ensures CutFilter(f, GetFilter(config1, f)) == GetFilter(config1, f)
  {
    match f case Wq => case Tc => case PageSize => case TransferSize => case Engine =>
  }

  function PackLast(config1: bv64, ws: seq<Write<IdxFilter>>): bv64 {
    Pack(LastValue(ws, Wq, GetFilter(config1, Wq)), LastValue(ws, Tc, GetFilter(config1, Tc)),
         LastValue(ws, PageSize, GetFilter(config1, PageSize)),
         LastValue(ws, TransferSize, GetFilter(config1, TransferSize)),
         LastValue(ws, Engine, GetFilter(config1, Engine)))
  }

  /** Any writes leave config1 equal to its last five values packed together, exactly if bits 60 to 63 were
      clear to begin with or something was written: the clearing constants drop those bits. */
  lemma FiltersPackLast(config1: bv64, ws: seq<Write<IdxFilter>>)
    ensures SetFilters(config1, ws) == PackLast(config1, ws) <==> TopBitsClear(config1) || ws != []
  {
    hide GetFilter, SetFilters, LastValue;
    var n := SetFilters(config1, ws);
    FiltersReturnLast(config1, ws, Wq);
    FiltersReturnLast(config1, ws, Tc);
    FiltersReturnLast(config1, ws, PageSize);
    FiltersReturnLast(config1, ws, TransferSize);
    FiltersReturnLast(config1, ws, Engine);
    NoFilters(config1);
    if TopBitsClear(n) {
      PackOfFilters(n);
    }
  }

  lemma NoFilters(config1: bv64)
    ensures SetFilters(config1, []) == config1
  {
  }

  /** The control register that the five filter registers of a counter share. */
  class PerfVirtualControlRegister {
    var config1: bv64

    constructor ()
      ensures config1 == 0
    {
      config1 := 0;
    }
  }

  class IDXPerfVirtualFilterRegister {
    const controlReg: PerfVirtualControlRegister
    const filterNr: int
    var lastValue: bv64

    constructor (controlReg: PerfVirtualControlRegister, filterNr: int)
      ensures this.controlReg == controlReg && this.filterNr == filterNr && Read() == 0
    {
      this.controlReg, this.filterNr, lastValue := controlReg, filterNr, 0;
    }

    /** The register's read operator returns the value last assigned, not the shared word's field. */
    function Read(): bv64
      reads this
    {
      lastValue
    }

    method Assign(val: bv64)
      modifies this, controlReg
      ensures Read() == val
      ensures filterNr == 0 ==> controlReg.config1 == SetFilter(old(controlReg.config1), Wq, val)
      ensures filterNr == 1 ==> controlReg.config1 == SetFilter(old(controlReg.config1), Tc, val)
      ensures filterNr == 2 ==> controlReg.config1 == SetFilter(old(controlReg.config1), PageSize, val)
      ensures filterNr == 3 ==> controlReg.config1 == SetFilter(old(controlReg.config1), TransferSize, val)
      ensures filterNr == 4 ==> controlReg.config1 == SetFilter(old(controlReg.config1), Engine, val)
      ensures !(0 <= filterNr <= 4) ==> controlReg.config1 == old(controlReg.config1)
    {
      hide SetFilter;
      lastValue := val;
      match filterNr
      case 0 => controlReg.config1 := SetFilter(controlReg.config1, Wq, val);
      case 1 => controlReg.config1 := SetFilter(controlReg.config1, Tc, val);
      case 2 => controlReg.config1 := SetFilter(controlReg.config1, PageSize, val);
      case 3 => controlReg.config1 := SetFilter(controlReg.config1, TransferSize, val);
      case 4 => controlReg.config1 := SetFilter(controlReg.config1, Engine, val);
      case _ =>
    }
  }

  function Number(f: IdxFilter): nat {
    match f case Wq => 0 case Tc => 1 case PageSize => 2 case TransferSize => 3 case Engine => 4
  }

  /** The five filter registers of one counter. */
  ghost predicate FiltersOf(filters: seq<IDXPerfVirtualFilterRegister>, control: PerfVirtualControlRegister) {
    |filters| == 5 && forall i :: 0 <= i < 5 ==> filters[i].filterNr == i && filters[i].controlReg == control
  }

  /** Any writes through the five registers of a fresh counter: the shared word ends up with the last value
      of each, packed together. Reading a filter register back, written or not, agrees with the field that
      the hardware uses if and only if the last value written to it fits the field. */
  method WriteFilters(filters: seq<IDXPerfVirtualFilterRegister>, control: PerfVirtualControlRegister,
                      ws: seq<Write<IdxFilter>>)
    requires FiltersOf(filters, control) && control.config1 == 0
    requires forall i :: 0 <= i < 5 ==> filters[i].Read() == 0
    modifies control, filters
    ensures control.config1 == PackLast(0, ws)
    ensures forall f :: filters[Number(f)].Read() == LastValue(ws, f, 0)
    ensures forall f :: filters[Number(f)].Read() == GetFilter(control.config1, f) <==> Fits(f, LastValue(ws, f, 0))
  {
    hide SetFilter, GetFilter, Pack, PackLast, Fits, SetFilters, LastValue;
    NoFilters(0);
    forall f ensures LastValue(ws[..0], f, 0) == 0 {
      NoWrites(ws[..0], f);
    }
    assert ws[..0] == [];
    for i := 0 to |ws|
      invariant control.config1 == SetFilters(0, ws[..i])
      invariant forall f :: filters[Number(f)].Read() == LastValue(ws[..i], f, 0)
    {
      var f := ws[i].field;
      NextWrite(ws, i);
      filters[Number(f)].Assign(ws[i].value);
    }
    assert ws[..|ws|] == ws;
    FiltersPackLast(0, ws);
    forall f
      ensures filters[Number(f)].Read() == GetFilter(control.config1, f) <==> Fits(f, LastValue(ws, f, 0))
    {
      FieldFitsLast(ws, f);
    }
  }

  lemma NoWrites(ws: seq<Write<IdxFilter>>, f: IdxFilter)
    requires ws == []
    ensures LastValue(ws, f, 0) == 0
  {
  }

  lemma NextWrite(ws: seq<Write<IdxFilter>>, i: nat)
    requires i < |ws|
    ensures SetFilters(0, ws[..i + 1]) == SetFilter(SetFilters(0, ws[..i]), ws[i].field, ws[i].value)
    ensures forall f :: LastValue(ws[..i + 1], f, 0) ==
              if ws[i].field == f then ws[i].value else LastValue(ws[..i], f, 0)
  {
    hide SetFilter;
    var front := ws[..i + 1];
    assert front[..|front| - 1] == ws[..i];
    forall f: IdxFilter
      ensures LastValue(front, f, 0) == if ws[i].field == f then ws[i].value else LastValue(ws[..i], f, 0)
    {
      assert front[|front| - 1] == ws[i];
    }
  }

  /** The word that the last values make up: each cut to its width and at its place, 0 if never written. */
  lemma WordOfLastValues(ws: seq<Write<IdxFilter>>)
    ensures PackLast(0, ws) ==
            (LastValue(ws, Wq, 0) & 0xffff_ffff) | ((LastValue(ws, Tc, 0) & 0xff) << 32) |
            ((LastValue(ws, PageSize, 0) & 0xf) << 40) | ((LastValue(ws, TransferSize, 0) & 0xff) << 44) |
            ((LastValue(ws, Engine, 0) & 0xff) << 52)
  {
    hide GetFilter, LastValue;
    EmptyField(Wq);
    EmptyField(Tc);
    EmptyField(PageSize);
    EmptyField(TransferSize);
    EmptyField(Engine);
  }

  /** A value that the hardware's field can hold. */
  predicate Fits(f: IdxFilter, x: bv64) {
    CutFilter(f, x) == x
  }

  lemma FieldFitsLast(ws: seq<Write<IdxFilter>>, f: IdxFilter)
    ensures GetFilter(SetFilters(0, ws), f) == LastValue(ws, f, 0) <==> Fits(f, LastValue(ws, f, 0))
  {
    hide CutFilter, GetFilter;
    FiltersReturnLast(0, ws, f);
    EmptyField(f);
  }

  lemma EmptyField(f: IdxFilter)
    ensures GetFilter(0, f) == 0
  {
  }
}
