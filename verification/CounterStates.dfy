/** The counter states: named accumulators that readings are added to. */
module CounterStates {
  import opened Sums

  /** The accumulators of a socket or system state. The first group belongs to
      BasicCounterState, the second to UncoreCounterState. A checked_uint64 is two
      accumulators, the data and its overflow count. */
  datatype Field =
    | InstRetiredAny | CpuClkUnhaltedThread | CpuClkUnhaltedRef | Event(index: nat)
    | Overflows(counter: nat) | InvariantTSC | CoreCState(state: nat) | SMICount
    | UncMCFullWrites | UncMCNormalReads | UncHARequests | UncHALocalRequests
    | UncNMMiss | UncNMHit | UncPMMWrites | UncPMMReads | UncEDCFullWrites | UncEDCNormalReads
    | UncMCGTRequests | UncMCIARequests | UncMCIORequests
    | PackageEnergyStatus | PPEnergyStatus(plane: nat) | DRAMEnergyStatus
    | TOROccupancyIAMiss | TORInsertsIAMiss | UncClocks | PackageCState(state: nat)

  predicate IsBasic(f: Field) {
    f.InstRetiredAny? || f.CpuClkUnhaltedThread? || f.CpuClkUnhaltedRef? || f.Event? ||
    f.Overflows? || f.InvariantTSC? || f.CoreCState? || f.SMICount?
  }

  /** The uncore accumulators that UncoreCounterState's += adds up; the near-memory
      counts and the power-plane energies are not among them. */
  predicate IsSummedUncore(f: Field) {
    !IsBasic(f) && !f.UncNMMiss? && !f.UncNMHit? && !f.PPEnergyStatus?
  }

  predicate IsSummed(f: Field) {
    IsBasic(f) || IsSummedUncore(f)
  }

  /** A state of zero-initialised accumulators; a field without an entry holds 0. */
  type Counters = map<Field, int>

  function Get(c: Counters, f: Field): int {
    if f in c then c[f] else 0
  }

  /** One executed statement `field += value`. */
  datatype Reading = Reading(field: Field, value: int)

  function AddReading(c: Counters, r: Reading): Counters {
    c[r.field := Wrap(Get(c, r.field) + r.value)]
  }

  function AddReadings(c: Counters, rs: seq<Reading>): Counters
    decreases rs
  {
    if rs == [] then c else AddReadings(AddReading(c, rs[0]), rs[1..])
  }

  /** What a list of readings adds to one field. */
  function Amount(rs: seq<Reading>, f: Field): int {
    if rs == [] then 0 else (if rs[0].field == f then rs[0].value else 0) + Amount(rs[1..], f)
  }

  lemma {:induction false} AmountAppend(a: seq<Reading>, b: seq<Reading>, f: Field)
    ensures Amount(a + b, f) == Amount(a, f) + Amount(b, f)
  {
    if a == [] {
      assert a + b == b;
    } else {
      assert (a + b)[1..] == a[1..] + b;
      AmountAppend(a[1..], b, f);
    }
  }

  lemma {:induction false} AmountOfOtherFields(rs: seq<Reading>, f: Field)
    requires forall i :: 0 <= i < |rs| ==> rs[i].field != f
    ensures Amount(rs, f) == 0
  {
    if rs != [] {
      assert rs[0].field != f;
      AmountOfOtherFields(rs[1..], f);
    }
  }

  /** Executing the statements one by one adds exactly their amount, modulo 2^64. */
  lemma {:induction false} AddReadingsGet(c: Counters, rs: seq<Reading>, f: Field)
    requires Get(c, f) == Wrap(Get(c, f))
    ensures Get(AddReadings(c, rs), f) == Wrap(Get(c, f) + Amount(rs, f))
    decreases rs
  {
    if rs != [] {
      var d := AddReading(c, rs[0]);
      AddReadingsGet(d, rs[1..], f);
      if rs[0].field == f {
        WrapAdd(Get(c, f) + rs[0].value, Amount(rs[1..], f));
      }
    }
  }

  /** BasicCounterState's operator +=. */
  function PlusBasic(a: Counters, b: Counters): Counters {
    map f | f in a.Keys + b.Keys :: if IsBasic(f) then Wrap(Get(a, f) + Get(b, f)) else Get(a, f)
  }

  /** UncoreCounterState's operator +=. */
  function PlusUncore(a: Counters, b: Counters): Counters {
    map f | f in a.Keys + b.Keys :: if IsSummedUncore(f) then Wrap(Get(a, f) + Get(b, f)) else Get(a, f)
  }

  lemma PlusBasicGet(a: Counters, b: Counters, f: Field)
    requires Get(a, f) == Wrap(Get(a, f))
    ensures Get(PlusBasic(a, b), f) == if IsBasic(f) then Wrap(Get(a, f) + Get(b, f)) else Get(a, f)
  {
  }

  /** Adding both parts of a state adds every summed field exactly once. */
  lemma PlusBothGet(a: Counters, b: Counters, f: Field)
    requires Get(a, f) == Wrap(Get(a, f))
    ensures Get(PlusUncore(PlusBasic(a, b), b), f) ==
            if IsSummed(f) then Wrap(Get(a, f) + Get(b, f)) else Get(a, f)
  {
  }
}
