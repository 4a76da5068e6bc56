/** Top-down slots of a core: each read of PERF_METRICS and TOPDOWN_SLOTS divides the slots among the
    categories, truncating, and adds the parts to 64-bit accumulators. */
module TopDownSlots {
  import opened Sums

  const TWO_TO_63 := 0x8000_0000_0000_0000

  /** The eight fractions of PERF_METRICS: level 1 and, nested in it, level 2. */
  datatype Metrics = Metrics(
    retiring: nat, badSpeculation: nat, frontend: nat, backend: nat,
    heavyOps: nat, brMispred: nat, fetchLat: nat, memBound: nat)

  /** extract_bits(perfMetrics, shift, shift + 7). */
  function ByteBits(perfMetrics: bv64, shift: bv6): bv8 {
    ((perfMetrics >> shift) & 0xff) as bv8
  }

  function Byte(perfMetrics: bv64, shift: bv6): nat {
    ByteBits(perfMetrics, shift) as int
  }

  function Encode(retiring: bv8, badSpeculation: bv8, frontend: bv8, backend: bv8,
                  heavyOps: bv8, brMispred: bv8, fetchLat: bv8, memBound: bv8): bv64 {
    (retiring as bv64) | (badSpeculation as bv64 << 8) | (frontend as bv64 << 16) | (backend as bv64 << 24) |
    (heavyOps as bv64 << 32) | (brMispred as bv64 << 40) | (fetchLat as bv64 << 48) | (memBound as bv64 << 56)
  }

  /** Without level 2 support the upper four fractions are not looked at and add nothing. */
  function Decode(perfMetrics: bv64, level2: bool): Metrics {
    if level2 then
      Metrics(Byte(perfMetrics, 0), Byte(perfMetrics, 8), Byte(perfMetrics, 16), Byte(perfMetrics, 24),
              Byte(perfMetrics, 32), Byte(perfMetrics, 40), Byte(perfMetrics, 48), Byte(perfMetrics, 56))
    else
      Metrics(Byte(perfMetrics, 0), Byte(perfMetrics, 8), Byte(perfMetrics, 16), Byte(perfMetrics, 24), 0, 0, 0, 0)
  }

  /** The eight fractions come out as the hardware put them in. */
  lemma DecodeEncode(retiring: bv8, badSpeculation: bv8, frontend: bv8, backend: bv8,
                     heavyOps: bv8, brMispred: bv8, fetchLat: bv8, memBound: bv8)
    ensures Decode(Encode(retiring, badSpeculation, frontend, backend,
                          heavyOps, brMispred, fetchLat, memBound), true) ==
            Metrics(retiring as int, badSpeculation as int, frontend as int, backend as int,
                    heavyOps as int, brMispred as int, fetchLat as int, memBound as int)
  {
    hide ByteBits, Encode;
    BytesOfEncode(retiring, badSpeculation, frontend, backend, heavyOps, brMispred, fetchLat, memBound);
  }

  lemma BytesOfEncode(retiring: bv8, badSpeculation: bv8, frontend: bv8, backend: bv8,
                      heavyOps: bv8, brMispred: bv8, fetchLat: bv8, memBound: bv8)
    ensures var m := Encode(retiring, badSpeculation, frontend, backend, heavyOps, brMispred, fetchLat, memBound);
            && ByteBits(m, 0) == retiring && ByteBits(m, 8) == badSpeculation
            && ByteBits(m, 16) == frontend && ByteBits(m, 24) == backend
            && ByteBits(m, 32) == heavyOps && ByteBits(m, 40) == brMispred
            && ByteBits(m, 48) == fetchLat && ByteBits(m, 56) == memBound
  {
  }

  /** One read of the two registers, which are zeroed afterwards. */
  datatype Read = Read(metrics: Metrics, slots: nat)

  function Total(m: Metrics): nat {
    m.frontend + m.badSpeculation + m.backend + m.retiring
  }

  /** uint64((double(part) / total) * double(slots)), or 0 for a zero total, in exact arithmetic. */
  function Share(part: nat, total: nat, slots: nat): int {
    if total == 0 then 0 else ((part as real / total as real) * slots as real).Floor
  }

  lemma ShareBounds(part: nat, total: nat, slots: nat)
    requires total > 0
    ensures Share(part, total, slots) * total <= part * slots < (Share(part, total, slots) + 1) * total
  {
    var x := (part as real / total as real) * slots as real;
    var f := x.Floor;
    RatioTimes(part as real, total as real, slots as real);
    assert f as real <= x < f as real + 1.0;
    ScaleReal(f as real, x, total as real);
    ScaleReal(x, f as real + 1.0, total as real);
    assert (f * total) as real == f as real * total as real;
    assert ((f + 1) * total) as real == (f as real + 1.0) * total as real;
    assert (part * slots) as real == part as real * slots as real;
  }

  lemma RatioTimes(p: real, t: real, s: real)
    requires t != 0.0
    ensures ((p / t) * s) * t == p * s
  {
    assert (p / t) * t == p;
    assert ((p / t) * s) * t == ((p / t) * t) * s;
  }

  lemma ScaleReal(a: real, b: real, t: real)
    requires t > 0.0
    ensures a <= b ==> a * t <= b * t
    ensures a < b ==> a * t < b * t
  {
  }

  /** The share is the quotient of integers. */
  lemma ShareIsQuotient(part: nat, total: nat, slots: nat)
    ensures Share(part, total, slots) == if total == 0 then 0 else part * slots / total
  {
    if total > 0 {
      ShareBounds(part, total, slots);
      QuotientUnique(part * slots, Share(part, total, slots), total);
    }
  }

  lemma QuotientUnique(x: nat, d: int, t: nat)
    requires t > 0 && d * t <= x < (d + 1) * t
    ensures x / t == d
  {
    var q := x / t;
    assert x == q * t + x % t;
    assert (q + 1) * t == q * t + t && (d + 1) * t == d * t + t;
    Cancel(d, q, t);
    Cancel(q, d, t);
  }

  lemma MulMonotone(a: int, b: int, t: nat)
    requires a <= b
    ensures a * t <= b * t
  {
    assert (b - a) * t >= 0;
    assert b * t == a * t + (b - a) * t;
  }

  lemma Cancel(a: int, b: int, t: nat)
    requires a * t < (b + 1) * t
    ensures a <= b
  {
    if b + 1 <= a {
      MulMonotone(b + 1, a, t);
    }
  }

  lemma ShareMonotone(part: nat, whole: nat, total: nat, slots: nat)
    requires part <= whole
    ensures 0 <= Share(part, total, slots) <= Share(whole, total, slots)
  {
    if total > 0 {
      ShareBounds(part, total, slots);
      ShareBounds(whole, total, slots);
      MulMonotone(part, whole, slots);
      Cancel(Share(part, total, slots), Share(whole, total, slots), total);
      MulMonotone(0, part, slots);
      Cancel(0, Share(part, total, slots), total);
    }
  }

  /** The accumulators of one core. */
  datatype Slots = Slots(
    retiring: int, badSpeculation: int, frontend: int, backend: int,
    heavyOps: int, brMispred: int, fetchLat: int, memBound: int, raw: int)

  const NO_SLOTS := Slots(0, 0, 0, 0, 0, 0, 0, 0, 0)

  function Shares(r: Read): Slots {
    var t := Total(r.metrics);
    Slots(Share(r.metrics.retiring, t, r.slots), Share(r.metrics.badSpeculation, t, r.slots),
          Share(r.metrics.frontend, t, r.slots), Share(r.metrics.backend, t, r.slots),
          Share(r.metrics.heavyOps, t, r.slots), Share(r.metrics.brMispred, t, r.slots),
          Share(r.metrics.fetchLat, t, r.slots), Share(r.metrics.memBound, t, r.slots), r.slots)
  }

  function Plus(a: Slots, b: Slots): Slots {
    Slots(a.retiring + b.retiring, a.badSpeculation + b.badSpeculation, a.frontend + b.frontend,
          a.backend + b.backend, a.heavyOps + b.heavyOps, a.brMispred + b.brMispred,
          a.fetchLat + b.fetchLat, a.memBound + b.memBound, a.raw + b.raw)
  }

  function Wrapped(a: Slots): Slots {
    Slots(Wrap(a.retiring), Wrap(a.badSpeculation), Wrap(a.frontend), Wrap(a.backend),
          Wrap(a.heavyOps), Wrap(a.brMispred), Wrap(a.fetchLat), Wrap(a.memBound), Wrap(a.raw))
  }

  /** What a list of reads adds up to, without the 64-bit wrap-around. */
  function Totals(samples: seq<Read>): Slots {
    if samples == [] then NO_SLOTS else Plus(Totals(samples[..|samples| - 1]), Shares(samples[|samples| - 1]))
  }

  /** The slots that a list of reads counted. */
  function RawSlots(samples: seq<Read>): nat {
    if samples == [] then 0 else RawSlots(samples[..|samples| - 1]) + samples[|samples| - 1].slots
  }

  lemma {:induction false} TotalsRaw(samples: seq<Read>)
    ensures Totals(samples).raw == RawSlots(samples)
  {
    hide Share, Total;
    if samples != [] {
      TotalsRaw(samples[..|samples| - 1]);
    }
  }

  function Categories(s: Slots): int {
    s.frontend + s.badSpeculation + s.backend + s.retiring
  }

  /** One read loses at most three slots to truncation; with a zero total it loses all of them. */
  lemma ShareDeficit(r: Read)
    ensures Total(r.metrics) == 0 ==> Categories(Shares(r)) == 0
    ensures Total(r.metrics) > 0 ==> Categories(Shares(r)) <= r.slots <= Categories(Shares(r)) + 3
    ensures Shares(r).retiring >= 0 && Shares(r).badSpeculation >= 0
    ensures Shares(r).frontend >= 0 && Shares(r).backend >= 0
  {
    var m, t, s := r.metrics, Total(r.metrics), r.slots;
    ShareMonotone(m.retiring, m.retiring, t, s);
    ShareMonotone(m.badSpeculation, m.badSpeculation, t, s);
    ShareMonotone(m.frontend, m.frontend, t, s);
    ShareMonotone(m.backend, m.backend, t, s);
    if t > 0 {
      ShareBounds(m.frontend, t, s);
      ShareBounds(m.badSpeculation, t, s);
      ShareBounds(m.backend, t, s);
      ShareBounds(m.retiring, t, s);
      FourParts(Share(m.frontend, t, s), Share(m.badSpeculation, t, s), Share(m.backend, t, s),
                Share(m.retiring, t, s), m.frontend, m.badSpeculation, m.backend, m.retiring, s);
    }
  }

  /** Four truncated parts of s slots sum to s, s - 1, s - 2 or s - 3. */
  lemma FourParts(a: int, b: int, c: int, d: int, p: nat, q: nat, r: nat, w: nat, s: nat)
    requires var t := p + q + r + w;
             && a * t <= p * s < (a + 1) * t && b * t <= q * s < (b + 1) * t
             && c * t <= r * s < (c + 1) * t && d * t <= w * s < (d + 1) * t
    ensures a + b + c + d <= s <= a + b + c + d + 3
  {
    var t := p + q + r + w;
    Distribute(a, b, c, d, t);
    Distribute(p, q, r, w, s);
    Between(a + b + c + d, s, t, a * t + b * t + c * t + d * t, p * s + q * s + r * s + w * s);
  }

  lemma Between(n: int, s: int, t: nat, x: int, y: int)
    requires x == n * t && y == s * t && x <= y < x + 4 * t
    ensures n <= s <= n + 3
  {
    assert (s + 1) * t == y + t && (n + 4) * t == x + 4 * t;
    Cancel(n, s, t);
    Cancel(s, n + 3, t);
  }

  lemma Distribute(a: int, b: int, c: int, d: int, t: int)
    ensures (a + b + c + d) * t == t * (a + b + c + d) == a * t + b * t + c * t + d * t
    ensures (a + 1) * t == a * t + t && (b + 1) * t == b * t + t && (c + 1) * t == c * t + t && (d + 1) * t == d * t + t
  {
  }

  /** The slots of reads whose fractions were all zero, and the number of other reads. */
  function ZeroSlots(samples: seq<Read>): nat {
    if samples == [] then 0
    else
      var last := samples[|samples| - 1];
      ZeroSlots(samples[..|samples| - 1]) + if Total(last.metrics) == 0 then last.slots else 0
  }

  function NonZeroReads(samples: seq<Read>): nat {
    if samples == [] then 0
    else
      NonZeroReads(samples[..|samples| - 1]) + if Total(samples[|samples| - 1].metrics) == 0 then 0 else 1
  }

  lemma NoReads()
    ensures Totals([]) == NO_SLOTS && ZeroSlots([]) == 0 && NonZeroReads([]) == 0
    ensures Categories(NO_SLOTS) == 0
  {
  }

  lemma LastRead(samples: seq<Read>)
    requires samples != []
    ensures var front, last := samples[..|samples| - 1], samples[|samples| - 1];
            && Totals(samples) == Plus(Totals(front), Shares(last))
            && ZeroSlots(samples) == ZeroSlots(front) + (if Total(last.metrics) == 0 then last.slots else 0)
            && NonZeroReads(samples) == NonZeroReads(front) + (if Total(last.metrics) == 0 then 0 else 1)
  {
    hide Share, Total;
  }

  /** The raw slots exceed the categories by at least `zero` and by at most three per read more. */
  predicate WithinDeficit(t: Slots, zero: nat, n: nat) {
    && zero <= t.raw - Categories(t) <= zero + 3 * n
    && t.retiring >= 0 && t.badSpeculation >= 0 && t.frontend >= 0 && t.backend >= 0
  }

  lemma OneMoreRead(t: Slots, zero: nat, n: nat, r: Read)
    requires WithinDeficit(t, zero, n)
    ensures Total(r.metrics) == 0 ==> WithinDeficit(Plus(t, Shares(r)), zero + r.slots, n)
    ensures Total(r.metrics) > 0 ==> WithinDeficit(Plus(t, Shares(r)), zero, n + 1)
  {
    hide Share;
    ShareDeficit(r);
  }

  /** Over any run the categories never exceed the raw slots, and fall short of them by the slots of the
      zero reads plus at most three for each other read. */
  lemma {:induction false} Deficit(samples: seq<Read>)
    ensures WithinDeficit(Totals(samples), ZeroSlots(samples), NonZeroReads(samples))
  {
    hide Share, Total, Shares, WithinDeficit, Plus;
    if samples == [] {
      NothingRead();
    } else {
      var front, last := samples[..|samples| - 1], samples[|samples| - 1];
      Deficit(front);
      OneMoreRead(Totals(front), ZeroSlots(front), NonZeroReads(front), last);
      LastRead(samples);
    }
  }

  lemma NothingRead()
    ensures WithinDeficit(Totals([]), ZeroSlots([]), NonZeroReads([]))
  {
  }

  /** Both ends of the range are reached: n reads of 1/1/1/1 over three slots lose three each, over four none. */
  lemma {:induction false} DeficitTight(n: nat, slots: nat)
    requires slots == 3 || slots == 4
    ensures var samples := Repeated(n, slots);
            var t := Totals(samples);
            NonZeroReads(samples) == n && t.raw - Categories(t) == if slots == 3 then 3 * n else 0
  {
    hide Share, Totals, ZeroSlots, NonZeroReads, Shares, Total, Categories, Plus, QuarterRead;
    if n == 0 {
      NoReads();
    } else {
      var r := Repeated(n, slots);
      DeficitTight(n - 1, slots);
      assert r[..n - 1] == Repeated(n - 1, slots);
      LastRead(r);
      QuarterShares(slots);
      CategoriesPlus(Totals(r[..n - 1]), Shares(r[n - 1]));
    }
  }

  lemma CategoriesPlus(a: Slots, b: Slots)
    ensures Categories(Plus(a, b)) == Categories(a) + Categories(b) && Plus(a, b).raw == a.raw + b.raw
  {
  }

  lemma QuarterShares(slots: nat)
    requires slots == 3 || slots == 4
    ensures var r := QuarterRead(slots);
            && Total(r.metrics) > 0 && Shares(r).raw == slots
            && Categories(Shares(r)) == if slots == 3 then 0 else 4
  {
    QuarterShare(slots);
  }

  lemma QuarterShare(slots: nat)
    requires slots == 3 || slots == 4
    ensures Share(1, 4, slots) == if slots == 3 then 0 else 1
  {
    assert 1 as real / 4 as real == 0.25;
  }

  function QuarterRead(slots: nat): Read {
    Read(Metrics(1, 1, 1, 1, 0, 0, 0, 0), slots)
  }

  function Repeated(n: nat, slots: nat): (r: seq<Read>)
    ensures |r| == n
  {
    if n == 0 then [] else Repeated(n - 1, slots) + [QuarterRead(slots)]
  }

  /** Level 2 fractions never exceed the level 1 fraction they are part of. */
  predicate Nested(m: Metrics) {
    m.heavyOps <= m.retiring && m.brMispred <= m.badSpeculation && m.fetchLat <= m.frontend && m.memBound <= m.backend
  }

  /** Then neither do the accumulated slots, so every level 2 difference stays non-negative. */
  lemma {:induction false} LevelsNest(samples: seq<Read>)
    requires forall i :: 0 <= i < |samples| ==> Nested(samples[i].metrics)
    ensures var t := Totals(samples);
            && t.heavyOps <= t.retiring && t.brMispred <= t.badSpeculation
            && t.fetchLat <= t.frontend && t.memBound <= t.backend
  {
    hide Share, Total;
    if samples != [] {
      LevelsNest(samples[..|samples| - 1]);
      var r := samples[|samples| - 1];
      assert Nested(r.metrics);
      var t := Total(r.metrics);
      ShareMonotone(r.metrics.heavyOps, r.metrics.retiring, t, r.slots);
      ShareMonotone(r.metrics.brMispred, r.metrics.badSpeculation, t, r.slots);
      ShareMonotone(r.metrics.fetchLat, r.metrics.frontend, t, r.slots);
      ShareMonotone(r.metrics.memBound, r.metrics.backend, t, r.slots);
    }
  }

  // ---------------------------------------------------------------------------------------
  // The accumulators of all cores

  /** An accumulator received its part of the slots: part / total of them, rounded down. */
  predicate Gains(before: int, after: int, part: nat, total: nat, slots: nat) {
    after == Wrap(before + if total == 0 then 0 else part * slots / total)
  }

  class TopDown {
    const level2: bool
    var acc: seq<Slots>
    ghost var samples: seq<seq<Read>>

    ghost predicate Valid()
      reads this
    {
      |acc| == |samples| && forall c :: 0 <= c < |acc| ==> acc[c] == Wrapped(Totals(samples[c]))
    }

    constructor (numCores: nat, level2: bool)
      ensures Valid() && this.level2 == level2 && |acc| == numCores
      ensures forall c :: 0 <= c < numCores ==> samples[c] == []
    {
      WrapZero();
      this.level2 := level2;
      acc, samples := seq(numCores, c => NO_SLOTS), seq(numCores, c => []);
    }

    /** The hardware branch of BasicCounterState::readAndAggregate; the result is what the state gets. */
    method ReadAndAggregate(core: nat, perfMetrics: bv64, slots: nat) returns (state: Slots)
      requires Valid() && core < |acc|
      modifies this
      ensures Valid()
      ensures samples == old(samples)[core := old(samples)[core] + [Read(Decode(perfMetrics, level2), slots)]]
      ensures state == acc[core] == Wrapped(Totals(samples[core]))
      ensures acc == old(acc)[core := state]
      ensures var total := Byte(perfMetrics, 0) + Byte(perfMetrics, 8) + Byte(perfMetrics, 16) + Byte(perfMetrics, 24);
              var before := old(acc)[core];
              && Gains(before.retiring, state.retiring, Byte(perfMetrics, 0), total, slots)
              && Gains(before.badSpeculation, state.badSpeculation, Byte(perfMetrics, 8), total, slots)
              && Gains(before.frontend, state.frontend, Byte(perfMetrics, 16), total, slots)
              && Gains(before.backend, state.backend, Byte(perfMetrics, 24), total, slots)
              && (level2 ==>
                    && Gains(before.heavyOps, state.heavyOps, Byte(perfMetrics, 32), total, slots)
                    && Gains(before.brMispred, state.brMispred, Byte(perfMetrics, 40), total, slots)
                    && Gains(before.fetchLat, state.fetchLat, Byte(perfMetrics, 48), total, slots)
                    && Gains(before.memBound, state.memBound, Byte(perfMetrics, 56), total, slots))
              && (!level2 ==>
                    && state.heavyOps == before.heavyOps && state.brMispred == before.brMispred
                    && state.fetchLat == before.fetchLat && state.memBound == before.memBound)
              && state.raw == Wrap(before.raw + slots)
    {
      hide Wrap, Share, Byte, Decode, GainsAll;
      var m := Decode(perfMetrics, level2);
      var total := Total(m);
      var before := acc[core];
      state := Slots(
        Wrap(before.retiring + Share(m.retiring, total, slots)),
        Wrap(before.badSpeculation + Share(m.badSpeculation, total, slots)),
        Wrap(before.frontend + Share(m.frontend, total, slots)),
        Wrap(before.backend + Share(m.backend, total, slots)),
        Wrap(before.heavyOps + Share(m.heavyOps, total, slots)),
        Wrap(before.brMispred + Share(m.brMispred, total, slots)),
        Wrap(before.fetchLat + Share(m.fetchLat, total, slots)),
        Wrap(before.memBound + Share(m.memBound, total, slots)),
        Wrap(before.raw + slots));
      ghost var history := samples[core] + [Read(m, slots)];
      assert history[..|history| - 1] == samples[core];
      WrappedPlus(Totals(samples[core]), Shares(Read(m, slots)));
      GainsOf(before, state, m, slots);
      DecodedGains(Totals(samples[core]), before, state, perfMetrics, level2, slots);
      acc, samples := acc[core := state], samples[core := history];
    }
  }

  predicate GainsAll(before: Slots, after: Slots, m: Metrics, slots: nat) {
    var total := m.retiring + m.badSpeculation + m.frontend + m.backend;
    && Gains(before.retiring, after.retiring, m.retiring, total, slots)
    && Gains(before.badSpeculation, after.badSpeculation, m.badSpeculation, total, slots)
    && Gains(before.frontend, after.frontend, m.frontend, total, slots)
    && Gains(before.backend, after.backend, m.backend, total, slots)
    && Gains(before.heavyOps, after.heavyOps, m.heavyOps, total, slots)
    && Gains(before.brMispred, after.brMispred, m.brMispred, total, slots)
    && Gains(before.fetchLat, after.fetchLat, m.fetchLat, total, slots)
    && Gains(before.memBound, after.memBound, m.memBound, total, slots)
    && after.raw == Wrap(before.raw + slots)
  }

  lemma GainsOf(before: Slots, after: Slots, m: Metrics, slots: nat)
    requires after == Wrapped(Plus(before, Shares(Read(m, slots))))
    ensures GainsAll(before, after, m, slots)
  {
    hide Wrap, Share;
    var total := Total(m);
    ShareIsQuotient(m.retiring, total, slots);
    ShareIsQuotient(m.badSpeculation, total, slots);
    ShareIsQuotient(m.frontend, total, slots);
    ShareIsQuotient(m.backend, total, slots);
    ShareIsQuotient(m.heavyOps, total, slots);
    ShareIsQuotient(m.brMispred, total, slots);
    ShareIsQuotient(m.fetchLat, total, slots);
    ShareIsQuotient(m.memBound, total, slots);
  }

  /** A part of 0 leaves an accumulator as it was. */
  lemma NothingGained(x: int, after: int, total: nat, slots: nat)
    requires Gains(Wrap(x), after, 0, total, slots)
    ensures after == Wrap(x)
  {
    WrapAdd(x, 0);
    hide Wrap;
    assert 0 * slots == 0;
  }

  lemma DecodedGains(x: Slots, before: Slots, state: Slots, perfMetrics: bv64, level2: bool, slots: nat)
    requires before == Wrapped(x) && GainsAll(before, state, Decode(perfMetrics, level2), slots)
    ensures var total := Byte(perfMetrics, 0) + Byte(perfMetrics, 8) + Byte(perfMetrics, 16) + Byte(perfMetrics, 24);
            && Gains(before.retiring, state.retiring, Byte(perfMetrics, 0), total, slots)
            && Gains(before.badSpeculation, state.badSpeculation, Byte(perfMetrics, 8), total, slots)
            && Gains(before.frontend, state.frontend, Byte(perfMetrics, 16), total, slots)
            && Gains(before.backend, state.backend, Byte(perfMetrics, 24), total, slots)
            && (level2 ==>
                  && Gains(before.heavyOps, state.heavyOps, Byte(perfMetrics, 32), total, slots)
                  && Gains(before.brMispred, state.brMispred, Byte(perfMetrics, 40), total, slots)
                  && Gains(before.fetchLat, state.fetchLat, Byte(perfMetrics, 48), total, slots)
                  && Gains(before.memBound, state.memBound, Byte(perfMetrics, 56), total, slots))
            && (!level2 ==>
                  && state.heavyOps == before.heavyOps && state.brMispred == before.brMispred
                  && state.fetchLat == before.fetchLat && state.memBound == before.memBound)
            && state.raw == Wrap(before.raw + slots)
  {
    hide Wrap, Byte, Gains;
    var m := Decode(perfMetrics, level2);
    var total := m.retiring + m.badSpeculation + m.frontend + m.backend;
    if !level2 {
      NothingGained(x.heavyOps, state.heavyOps, total, slots);
      NothingGained(x.brMispred, state.brMispred, total, slots);
      NothingGained(x.fetchLat, state.fetchLat, total, slots);
      NothingGained(x.memBound, state.memBound, total, slots);
    }
  }

  lemma WrappedPlus(a: Slots, b: Slots)
    ensures Wrapped(Plus(Wrapped(a), b)) == Wrapped(Plus(a, b))
  {
    hide Wrap;
    WrapAdd(a.retiring, b.retiring);
    WrapAdd(a.badSpeculation, b.badSpeculation);
    WrapAdd(a.frontend, b.frontend);
    WrapAdd(a.backend, b.backend);
    WrapAdd(a.heavyOps, b.heavyOps);
    WrapAdd(a.brMispred, b.brMispred);
    WrapAdd(a.fetchLat, b.fetchLat);
    WrapAdd(a.memBound, b.memBound);
    WrapAdd(a.raw, b.raw);
  }

  // ---------------------------------------------------------------------------------------
  // getAllSlots and getAllSlotsRaw

  function ToInt64(x: int): int {
    if x < TWO_TO_63 then x else x - TWO_TO_64
  }

  function Delta(before: int, after: int): int {
    ToInt64(Wrap(after - before))
  }

  function GetAllSlots(before: Slots, after: Slots): int {
    var a := Delta(before.backend, after.backend);
    var b := Delta(before.frontend, after.frontend);
    var c := Delta(before.badSpeculation, after.badSpeculation);
    var d := Delta(before.retiring, after.retiring);
    Wrap(a + b + c + d)
  }

  function GetAllSlotsRaw(before: Slots, after: Slots): int {
    Wrap(after.raw - before.raw)
  }

  lemma DeltaOfWrapped(x: int, d: int)
    requires 0 <= d < TWO_TO_63
    ensures Delta(Wrap(x), Wrap(x + d)) == d
  {
  }

  lemma RawDelta(x: int, d: int)
    requires 0 <= d < TWO_TO_64
    ensures Wrap(Wrap(x + d) - Wrap(x)) == d
  {
  }

  lemma PlusAssociative(a: Slots, b: Slots, c: Slots)
    ensures Plus(a, Plus(b, c)) == Plus(Plus(a, b), c)
  {
  }

  lemma PlusZero(a: Slots)
    ensures Plus(a, NO_SLOTS) == a
  {
  }

  lemma {:induction false} TotalsAppend(a: seq<Read>, b: seq<Read>)
    ensures Totals(a + b) == Plus(Totals(a), Totals(b))
  {
    hide Shares, Plus, Share, Total;
    if b == [] {
      assert a + b == a;
      PlusZero(Totals(a));
    } else {
      var n := |b| - 1;
      assert (a + b)[..|a + b| - 1] == a + b[..n];
      TotalsAppend(a, b[..n]);
      LastRead(a + b);
      LastRead(b);
      assert (a + b)[|a + b| - 1] == b[n];
      PlusAssociative(Totals(a), Totals(b[..n]), Shares(b[n]));
    }
  }

  /** Between two states that differ by d, wherever their accumulators wrapped: what getAllSlots and
      getAllSlotsRaw return. */
  lemma SlotsOfDifference(x: Slots, d: Slots, zero: nat, n: nat)
    requires WithinDeficit(d, zero, n) && d.raw < TWO_TO_63
    ensures var s1, s2 := Wrapped(x), Wrapped(Plus(x, d));
            && GetAllSlotsRaw(s1, s2) == d.raw && GetAllSlots(s1, s2) == Categories(d)
            && GetAllSlots(s1, s2) + zero <= GetAllSlotsRaw(s1, s2) <= GetAllSlots(s1, s2) + zero + 3 * n
            && Differences(s1, s2)
  {
    hide Wrap, Delta;
    DeltaOfWrapped(x.backend, d.backend);
    DeltaOfWrapped(x.frontend, d.frontend);
    DeltaOfWrapped(x.badSpeculation, d.badSpeculation);
    DeltaOfWrapped(x.retiring, d.retiring);
    RawDelta(x.raw, d.raw);
    SmallWrap(Categories(d));
  }

  /** What getAllSlots asserts. */
  predicate Differences(s1: Slots, s2: Slots) {
    && Delta(s1.backend, s2.backend) >= 0 && Delta(s1.frontend, s2.frontend) >= 0
    && Delta(s1.badSpeculation, s2.badSpeculation) >= 0 && Delta(s1.retiring, s2.retiring) >= 0
  }

  /** Between any two states of a core, whatever the accumulators held and wherever they wrapped:
      getAllSlots never exceeds getAllSlotsRaw and misses the slots of the zero reads plus at most three
      per other read. The four asserted differences are non-negative. */
  lemma SlotsBetween(before: seq<Read>, more: seq<Read>)
    requires RawSlots(more) < TWO_TO_63
    ensures var s1, s2 := Wrapped(Totals(before)), Wrapped(Totals(before + more));
            && GetAllSlotsRaw(s1, s2) == RawSlots(more)
            && GetAllSlots(s1, s2) == Categories(Totals(more))
            && GetAllSlots(s1, s2) + ZeroSlots(more) <= GetAllSlotsRaw(s1, s2)
                 <= GetAllSlots(s1, s2) + ZeroSlots(more) + 3 * NonZeroReads(more)
            && Differences(s1, s2)
  {
    hide Wrap, Totals, ZeroSlots, NonZeroReads, RawSlots, WithinDeficit, GetAllSlots, GetAllSlotsRaw, Wrapped, Plus;
    TotalsAppend(before, more);
    TotalsRaw(more);
    Deficit(more);
    SlotsOfDifference(Totals(before), Totals(more), ZeroSlots(more), NonZeroReads(more));
  }

  // ---------------------------------------------------------------------------------------
  // Sockets and the system

  /** A socket's or the system's state: the states of its cores added up by +=, field by field. */
  function Aggregated(states: seq<Slots>): Slots {
    if states == [] then NO_SLOTS else Wrapped(Plus(Aggregated(states[..|states| - 1]), states[|states| - 1]))
  }

  /** The states of cores that went through these reads. */
  function States(cores: seq<seq<Read>>): seq<Slots> {
    seq(|cores|, c requires 0 <= c < |cores| => Wrapped(Totals(cores[c])))
  }

  function AllTotals(cores: seq<seq<Read>>): Slots {
    if cores == [] then NO_SLOTS else Plus(AllTotals(cores[..|cores| - 1]), Totals(cores[|cores| - 1]))
  }

  lemma WrappedBoth(a: Slots, b: Slots)
    ensures Wrapped(Plus(Wrapped(a), Wrapped(b))) == Wrapped(Plus(a, b))
  {
    hide Wrap;
    WrappedPlus(a, Wrapped(b));
    WrappedPlus(b, a);
    assert Plus(a, Wrapped(b)) == Plus(Wrapped(b), a) && Plus(a, b) == Plus(b, a);
  }

  lemma {:induction false} AggregatedTotals(cores: seq<seq<Read>>)
    ensures Aggregated(States(cores)) == Wrapped(AllTotals(cores))
  {
    if cores == [] {
      WrapZero();
    } else {
      hide Totals, Plus, Wrapped;
      var n := |cores| - 1;
      AggregatedTotals(cores[..n]);
      assert States(cores)[..n] == States(cores[..n]);
      WrappedBoth(AllTotals(cores[..n]), Totals(cores[n]));
    }
  }

  /** Adding up states adds up each accumulator by itself. */
  lemma {:induction false} AggregatedFields(
      states: seq<Slots>, retiring: seq<int>, badSpeculation: seq<int>, frontend: seq<int>, backend: seq<int>,
      heavyOps: seq<int>, brMispred: seq<int>, fetchLat: seq<int>, memBound: seq<int>, raw: seq<int>)
    requires |states| == |retiring| == |badSpeculation| == |frontend| == |backend|
    requires |states| == |heavyOps| == |brMispred| == |fetchLat| == |memBound| == |raw|
    requires forall i :: 0 <= i < |states| ==>
               states[i] == Slots(retiring[i], badSpeculation[i], frontend[i], backend[i],
                                  heavyOps[i], brMispred[i], fetchLat[i], memBound[i], raw[i])
    ensures Aggregated(states) == Slots(
              Wrap(Sum(retiring)), Wrap(Sum(badSpeculation)), Wrap(Sum(frontend)), Wrap(Sum(backend)),
              Wrap(Sum(heavyOps)), Wrap(Sum(brMispred)), Wrap(Sum(fetchLat)), Wrap(Sum(memBound)), Wrap(Sum(raw)))
  {
    WrapZero();
    hide Wrap;
    if states != [] {
      hide Sum;
      var n := |states| - 1;
      SumLast(retiring);
      SumLast(badSpeculation);
      SumLast(frontend);
      SumLast(backend);
      SumLast(heavyOps);
      SumLast(brMispred);
      SumLast(fetchLat);
      SumLast(memBound);
      SumLast(raw);
      AggregatedFields(states[..n], retiring[..n], badSpeculation[..n], frontend[..n], backend[..n],
                       heavyOps[..n], brMispred[..n], fetchLat[..n], memBound[..n], raw[..n]);
      WrappedPlus(Slots(Sum(retiring[..n]), Sum(badSpeculation[..n]), Sum(frontend[..n]), Sum(backend[..n]),
                        Sum(heavyOps[..n]), Sum(brMispred[..n]), Sum(fetchLat[..n]), Sum(memBound[..n]),
                        Sum(raw[..n])), states[n]);
    }
  }

  /** Each core's reads followed by its later reads. */
  function Appended(before: seq<seq<Read>>, more: seq<seq<Read>>): seq<seq<Read>>
    requires |before| == |more|
  {
    seq(|before|, c requires 0 <= c < |before| => before[c] + more[c])
  }

  lemma PlusSwap(a: Slots, b: Slots, c: Slots, d: Slots)
    ensures Plus(Plus(a, b), Plus(c, d)) == Plus(Plus(a, c), Plus(b, d))
  {
  }

  lemma {:induction false} AllTotalsAppend(before: seq<seq<Read>>, more: seq<seq<Read>>)
    requires |before| == |more|
    ensures AllTotals(Appended(before, more)) == Plus(AllTotals(before), AllTotals(more))
  {
    hide Totals, Plus;
    if before == [] {
      PlusZero(NO_SLOTS);
    } else {
      var n := |before| - 1;
      AllTotalsAppend(before[..n], more[..n]);
      assert Appended(before, more)[..n] == Appended(before[..n], more[..n]);
      TotalsAppend(before[n], more[n]);
      PlusSwap(AllTotals(before[..n]), AllTotals(more[..n]), Totals(before[n]), Totals(more[n]));
    }
  }

  function AllRawSlots(cores: seq<seq<Read>>): nat {
    if cores == [] then 0 else AllRawSlots(cores[..|cores| - 1]) + RawSlots(cores[|cores| - 1])
  }

  function AllZeroSlots(cores: seq<seq<Read>>): nat {
    if cores == [] then 0 else AllZeroSlots(cores[..|cores| - 1]) + ZeroSlots(cores[|cores| - 1])
  }

  function AllNonZeroReads(cores: seq<seq<Read>>): nat {
    if cores == [] then 0 else AllNonZeroReads(cores[..|cores| - 1]) + NonZeroReads(cores[|cores| - 1])
  }

  lemma DeficitsAdd(a: Slots, zero: nat, n: nat, b: Slots, zero': nat, n': nat)
    requires WithinDeficit(a, zero, n) && WithinDeficit(b, zero', n')
    ensures WithinDeficit(Plus(a, b), zero + zero', n + n') && Plus(a, b).raw == a.raw + b.raw
  {
  }

  lemma {:induction false} AllDeficits(cores: seq<seq<Read>>)
    ensures WithinDeficit(AllTotals(cores), AllZeroSlots(cores), AllNonZeroReads(cores))
    ensures AllTotals(cores).raw == AllRawSlots(cores)
  {
    if cores != [] {
      hide WithinDeficit, Totals, ZeroSlots, NonZeroReads, RawSlots, Plus;
      var front, last := cores[..|cores| - 1], cores[|cores| - 1];
      AllDeficits(front);
      Deficit(last);
      TotalsRaw(last);
      DeficitsAdd(AllTotals(front), AllZeroSlots(front), AllNonZeroReads(front),
                  Totals(last), ZeroSlots(last), NonZeroReads(last));
    }
  }

  /** The same bound for socket and system states, over any reads of any number of cores. */
  lemma AggregatedSlotsBetween(before: seq<seq<Read>>, more: seq<seq<Read>>)
    requires |before| == |more| && AllRawSlots(more) < TWO_TO_63
    ensures var s1, s2 := Aggregated(States(before)), Aggregated(States(Appended(before, more)));
            && GetAllSlotsRaw(s1, s2) == AllRawSlots(more)
            && GetAllSlots(s1, s2) + AllZeroSlots(more) <= GetAllSlotsRaw(s1, s2)
                 <= GetAllSlots(s1, s2) + AllZeroSlots(more) + 3 * AllNonZeroReads(more)
            && Differences(s1, s2)
  {
    hide WithinDeficit, GetAllSlots, GetAllSlotsRaw, Wrapped, Plus, Aggregated, AllTotals, AllZeroSlots,
      AllNonZeroReads, AllRawSlots, Differences;
    AggregatedTotals(before);
    AggregatedTotals(Appended(before, more));
    AllTotalsAppend(before, more);
    AllDeficits(more);
    SlotsOfDifference(AllTotals(before), AllTotals(more), AllZeroSlots(more), AllNonZeroReads(more));
  }

  lemma SmallWrap(x: int)
    requires 0 <= x < TWO_TO_64
    ensures Wrap(x) == x
  {
  }
}
