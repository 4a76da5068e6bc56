/** Reading the uncore PMUs of a socket, which are grouped by die and by kind, and looking a
    counter up by one flat unit number. */
module UncoreCounters {
  import opened Sums

  const MAX_COUNTERS := 8

  /** One entry of a vector of PMU references: null, or the values its counter registers read. */
  datatype Unit = Null | Pmu(values: seq<int>)

  /** The PMUs of one die, by kind. */
  type Die = map<int, seq<Unit>>

  /** The eight counters kept for one unit, and those of all units of a die. */
  type Row = r: seq<int> | |r| == MAX_COUNTERS witness [0,0,0,0,0,0,0,0]
  type DieCounters = map<int, seq<Row>>

  function ZeroRow(): Row {
    seq(MAX_COUNTERS, i => 0)
  }

  predicate FitsUnit(u: Unit) {
    u.Pmu? ==> |u.values| <= MAX_COUNTERS && forall i :: 0 <= i < |u.values| ==> 0 <= u.values[i] < TWO_TO_64
  }

  predicate FitsDie(d: Die) {
    forall id :: id in d ==> forall u :: 0 <= u < |d[id]| ==> FitsUnit(d[id][u])
  }

  predicate FitsSocket(dies: seq<Die>) {
    forall d :: 0 <= d < |dies| ==> FitsDie(dies[d])
  }

  // ---------------------------------------------------------------------------------------
  // readUncoreCounterValues

  /** What reading a unit leaves in its row: a null unit and the counters a unit does not have
      keep what was there. */
  function ReadRow(prior: Row, u: Unit): Row
    requires FitsUnit(u)
  {
    match u
    case Null => prior
    case Pmu(values) => values + prior[|values|..]
  }

  function PriorRow(prior: seq<Row>, u: nat): Row {
    if u < |prior| then prior[u] else ZeroRow()
  }

  function ReadRows(prior: seq<Row>, units: seq<Unit>): seq<Row>
    requires forall u :: 0 <= u < |units| ==> FitsUnit(units[u])
  {
    seq(|units|, u requires 0 <= u < |units| => ReadRow(PriorRow(prior, u), units[u]))
  }

  function PriorRows(prior: DieCounters, id: int): seq<Row> {
    if id in prior then prior[id] else []
  }

  function ReadDie(prior: DieCounters, die: Die): DieCounters
    requires FitsDie(die)
  {
    map id | id in prior.Keys + die.Keys ::
      if id in die then ReadRows(PriorRows(prior, id), die[id]) else prior[id]
  }

  function PriorDie(prior: seq<DieCounters>, d: nat): DieCounters {
    if d < |prior| then prior[d] else map[]
  }

  function ReadDies(prior: seq<DieCounters>, dies: seq<Die>): seq<DieCounters>
    requires FitsSocket(dies)
  {
    seq(|dies|, d requires 0 <= d < |dies| => ReadDie(PriorDie(prior, d), dies[d]))
  }

  method ReadUnit(prior: Row, u: Unit) returns (row: Row)
    requires FitsUnit(u)
    ensures row == ReadRow(prior, u)
  {
    row := prior;
    if u.Pmu? {
      for i := 0 to |u.values|
        invariant row == u.values[..i] + prior[i..]
      {
        row := row[i := u.values[i]];
      }
    }
  }

  method ReadUnits(prior: seq<Row>, units: seq<Unit>) returns (rows: seq<Row>)
    requires forall u :: 0 <= u < |units| ==> FitsUnit(units[u])
    ensures rows == ReadRows(prior, units)
  {
    rows := seq(|units|, u requires u >= 0 => PriorRow(prior, u));
    for unit := 0 to |units|
      invariant |rows| == |units|
      invariant forall u :: 0 <= u < unit ==> rows[u] == ReadRow(PriorRow(prior, u), units[u])
      invariant forall u :: unit <= u < |units| ==> rows[u] == PriorRow(prior, u)
    {
      var row := ReadUnit(rows[unit], units[unit]);
      rows := rows[unit := row];
    }
  }

  /** The reads of some of the kinds of a die. */
  function ReadSome(prior: DieCounters, die: Die, kinds: set<int>): DieCounters
    requires FitsDie(die) && kinds <= die.Keys
  {
    map id | id in prior.Keys + kinds ::
      if id in kinds then ReadRows(PriorRows(prior, id), die[id]) else prior[id]
  }

  lemma ReadOneMore(prior: DieCounters, die: Die, kinds: set<int>, id: int)
    requires FitsDie(die) && kinds <= die.Keys && id in die.Keys - kinds
    ensures PriorRows(ReadSome(prior, die, kinds), id) == PriorRows(prior, id)
    ensures ReadSome(prior, die, kinds)[id := ReadRows(PriorRows(prior, id), die[id])] ==
            ReadSome(prior, die, kinds + {id})
  {
    hide ReadRows;
  }

  lemma ReadNoneAndAll(prior: DieCounters, die: Die)
    requires FitsDie(die)
    ensures ReadSome(prior, die, {}) == prior && ReadSome(prior, die, die.Keys) == ReadDie(prior, die)
  {
    hide ReadRows;
  }

  lemma HasMember(s: set<int>)
    ensures s != {} ==> exists x :: x in s
  {
    if forall x :: x !in s {
      assert s == {};
    }
  }

  method ReadKinds(prior: DieCounters, die: Die) returns (counters: DieCounters)
    requires FitsDie(die)
    ensures counters == ReadDie(prior, die)
  {
    hide ReadRows, ReadSome, ReadDie, PriorRows;
    ReadNoneAndAll(prior, die);
    counters := prior;
    var left, done := die.Keys, {};
    while left != {}
      invariant left + done == die.Keys && left !! done
      invariant counters == ReadSome(prior, die, done)
      decreases |left|
    {
      HasMember(left);
      var id :| id in left;
      ReadOneMore(prior, die, done, id);
      var rows := ReadUnits(PriorRows(counters, id), die[id]);
      counters := counters[id := rows];
      left, done := left - {id}, done + {id};
    }
    assert done == die.Keys;
  }

  /** The Counters member of a socket's or the system's counter state. */
  class ServerUncoreCounterState {
    var counters: seq<DieCounters>

    constructor ()
      ensures counters == []
    {
      counters := [];
    }

    method ReadUncoreCounterValues(uncorePMUs: seq<seq<Die>>, socket: nat)
      requires socket < |uncorePMUs| ==> FitsSocket(uncorePMUs[socket])
      modifies this
      ensures counters == if socket < |uncorePMUs| then ReadDies(old(counters), uncorePMUs[socket]) else old(counters)
      ensures socket < |uncorePMUs| ==>
                && |counters| == |uncorePMUs[socket]|
                && forall d, id :: 0 <= d < |counters| && id in uncorePMUs[socket][d] ==>
                     var units := uncorePMUs[socket][d][id];
                     && id in counters[d] && |counters[d][id]| == |units|
                     && forall u, c :: 0 <= u < |units| && 0 <= c < MAX_COUNTERS ==>
                          && (units[u].Pmu? && c < |units[u].values| ==> counters[d][id][u][c] == units[u].values[c])
                          && ((units[u].Null? || c >= |units[u].values|) && d < |old(counters)|
                              && id in old(counters)[d] && u < |old(counters)[d][id]| ==>
                                counters[d][id][u][c] == old(counters)[d][id][u][c])
                          && ((units[u].Null? || c >= |units[u].values|)
                              && !(d < |old(counters)| && id in old(counters)[d] && u < |old(counters)[d][id]|) ==>
                                counters[d][id][u][c] == 0)
    {
      if socket < |uncorePMUs| {
        var dies := uncorePMUs[socket];
        var prior := counters;
        counters := seq(|dies|, d requires d >= 0 => PriorDie(prior, d));
        for die := 0 to |dies|
          invariant |counters| == |dies|
          invariant forall d :: 0 <= d < die ==> counters[d] == ReadDie(PriorDie(prior, d), dies[d])
          invariant forall d :: die <= d < |dies| ==> counters[d] == PriorDie(prior, d)
        {
          var read := ReadKinds(counters[die], dies[die]);
          counters := counters[die := read];
        }
      }
    }
  }

  // ---------------------------------------------------------------------------------------
  // Flat unit numbers

  /** All units of one kind of a socket: the concatenation of the per-die vectors. */
  function Units(dies: seq<Die>, id: int): seq<Unit> {
    if dies == [] then []
    else Units(dies[..|dies| - 1], id) +
         var last := dies[|dies| - 1]; if id in last then last[id] else []
  }

  method GetMaxNumOfUncorePMUs(uncorePMUs: seq<seq<Die>>, id: int, socket: nat) returns (count: nat)
    ensures count == if socket < |uncorePMUs| then |Units(uncorePMUs[socket], id)| else 0
  {
    count := 0;
    if socket < |uncorePMUs| {
      var s := uncorePMUs[socket];
      for d := 0 to |s|
        invariant count == |Units(s[..d], id)|
      {
        assert s[..d + 1][..d] == s[..d];
        if id in s[d] {
          count := count + |s[d][id]|;
        }
      }
      assert s[..|s|] == s;
    }
  }

  /** The rows of all units of one kind, before and after, over the dies that have the kind in
      both states. */
  function RowPairs(before: seq<DieCounters>, after: seq<DieCounters>, id: int): seq<(Row, Row)>
    requires Comparable(before, after, id)
  {
    if after == [] then []
    else
      var n := |after| - 1;
      RowPairs(before, after[..n], id) +
      if id in after[n] && id in before[n]
      then Zip(before[n][id], after[n][id])
      else []
  }

  function Zip(before: seq<Row>, after: seq<Row>): seq<(Row, Row)>
    requires |before| == |after|
  {
    seq(|after|, u requires 0 <= u < |after| => (before[u], after[u]))
  }

  /** What getUncoreCounter asserts of its two states. */
  predicate Comparable(before: seq<DieCounters>, after: seq<DieCounters>, id: int) {
    |after| <= |before| &&
    forall d :: 0 <= d < |after| && id in after[d] && id in before[d] ==> |after[d][id]| == |before[d][id]|
  }

  /** The flat lookup: the unit's own counter difference in 64 bits, and zero past the end. */
  function UncoreCounter(id: int, unit: nat, counter: nat, before: seq<DieCounters>, after: seq<DieCounters>): int
    requires Comparable(before, after, id)
  {
    var pairs := RowPairs(before, after, id);
    if counter < MAX_COUNTERS && unit < |pairs| then Wrap(pairs[unit].1[counter] - pairs[unit].0[counter]) else 0
  }

  lemma {:induction false} RowPairsPrefix(before: seq<DieCounters>, after: seq<DieCounters>, id: int, n: nat)
    requires Comparable(before, after, id) && n <= |after|
    ensures RowPairs(before, after[..n], id) <= RowPairs(before, after, id)
    decreases |after| - n
  {
    if n < |after| {
      RowPairsPrefix(before, after, id, n + 1);
      assert after[..n + 1][..n] == after[..n];
    } else {
      assert after[..n] == after;
    }
  }

  lemma PairAt(before: seq<DieCounters>, after: seq<DieCounters>, id: int, d: nat, u: nat)
    requires Comparable(before, after, id) && d < |after|
    requires id in after[d] && id in before[d] && u < |after[d][id]|
    ensures var k := |RowPairs(before, after[..d], id)| + u;
            k < |RowPairs(before, after, id)| && RowPairs(before, after, id)[k] == (before[d][id][u], after[d][id][u])
  {
    var pairs := RowPairs(before, after[..d + 1], id);
    assert after[..d + 1][..d] == after[..d];
    assert pairs[|RowPairs(before, after[..d], id)| + u] == Zip(before[d][id], after[d][id])[u];
    RowPairsPrefix(before, after, id, d + 1);
  }

  lemma NextPairs(before: seq<DieCounters>, after: seq<DieCounters>, id: int, d: nat)
    requires Comparable(before, after, id) && d < |after|
    ensures |RowPairs(before, after[..d + 1], id)| ==
            |RowPairs(before, after[..d], id)| + if id in after[d] && id in before[d] then |after[d][id]| else 0
  {
    assert after[..d + 1][..d] == after[..d];
  }

  method GetUncoreCounter(id: int, flatUnit: nat, counter: nat, before: seq<DieCounters>, after: seq<DieCounters>)
    returns (r: int)
    requires Comparable(before, after, id)
    ensures r == UncoreCounter(id, flatUnit, counter, before, after)
  {
    hide Zip;
    var unit := flatUnit;
    var die := 0;
    while counter < MAX_COUNTERS && die < |after|
      invariant 0 <= die <= |after| && 0 <= unit
      invariant unit + |RowPairs(before, after[..die], id)| == flatUnit
    {
      NextPairs(before, after, id, die);
      if id in after[die] && id in before[die] {
        if unit < |after[die][id]| {
          var afterRow, beforeRow := after[die][id][unit], before[die][id][unit];
          PairAt(before, after, id, die, unit);
          return Wrap(afterRow[counter] - beforeRow[counter]);
        }
        unit := unit - |after[die][id]|;
      }
      die := die + 1;
    }
    assert after[..|after|] == after;
    r := 0;
  }

  /** The numbers of units that the first n dies have in both states. */
  function UnitCounts(before: seq<DieCounters>, after: seq<DieCounters>, id: int, n: nat): seq<int>
    requires n <= |after| <= |before|
  {
    seq(n, i requires 0 <= i < n => if id in after[i] && id in before[i] then |after[i][id]| else 0)
  }

  lemma {:induction false} PairsCount(before: seq<DieCounters>, after: seq<DieCounters>, id: int, n: nat)
    requires Comparable(before, after, id) && n <= |after|
    ensures |RowPairs(before, after[..n], id)| == Sum(UnitCounts(before, after, id, n))
  {
    if n > 0 {
      PairsCount(before, after, id, n - 1);
      NextPairs(before, after, id, n - 1);
      assert UnitCounts(before, after, id, n)[..n - 1] == UnitCounts(before, after, id, n - 1);
    }
  }

  /** Unit u of die d has the flat number u plus the numbers of units of the dies before it, and its counters
      are compared with its own counters. */
  lemma FlatUnit(id: int, counter: nat, before: seq<DieCounters>, after: seq<DieCounters>, d: nat, u: nat)
    requires Comparable(before, after, id) && counter < MAX_COUNTERS && d < |after|
    requires id in after[d] && id in before[d] && u < |after[d][id]|
    ensures var flat := Sum(UnitCounts(before, after, id, d)) + u;
            && flat >= 0
            && UncoreCounter(id, flat, counter, before, after) ==
               Wrap(after[d][id][u][counter] - before[d][id][u][counter])
  {
    hide Wrap, Sum, UnitCounts, RowPairs, Zip, Comparable;
    PairsCount(before, after, id, d);
    PairAt(before, after, id, d, u);
  }

  /** Past the last unit there is nothing. */
  lemma PastTheUnits(id: int, flat: nat, counter: nat, before: seq<DieCounters>, after: seq<DieCounters>)
    requires Comparable(before, after, id)
    requires flat >= Sum(UnitCounts(before, after, id, |after|)) || counter >= MAX_COUNTERS
    ensures UncoreCounter(id, flat, counter, before, after) == 0
  {
    PairsCount(before, after, id, |after|);
    assert after[..|after|] == after;
  }

  // ---------------------------------------------------------------------------------------
  // Summing over all units

  /** The value one unit contributes to getUncoreCounterState. */
  function UnitValue(u: Unit, ctr: nat): int
    requires u.Pmu? ==> ctr < |u.values|
  {
    if u.Pmu? then u.values[ctr] else 0
  }

  predicate AllHave(units: seq<Unit>, ctr: nat) {
    forall u :: 0 <= u < |units| && units[u].Pmu? ==> ctr < |units[u].values|
  }

  function UnitValues(units: seq<Unit>, ctr: nat): seq<int>
    requires AllHave(units, ctr)
  {
    seq(|units|, u requires 0 <= u < |units| => UnitValue(units[u], ctr))
  }

  lemma UnitValuesAre(units: seq<Unit>, ctr: nat)
    requires AllHave(units, ctr)
    ensures UnitValues(units, ctr) ==
            seq(|units|, u requires 0 <= u < |units| => if units[u].Pmu? then units[u].values[ctr] else 0)
  {
  }

  lemma AllHaveParts(a: seq<Unit>, b: seq<Unit>, ctr: nat)
    requires AllHave(a + b, ctr)
    ensures AllHave(a, ctr) && AllHave(b, ctr)
  {
    assert forall u :: 0 <= u < |a| ==> (a + b)[u] == a[u];
    assert forall u :: 0 <= u < |b| ==> (a + b)[|a| + u] == b[u];
  }

  lemma {:induction false} AllHavePrefix(dies: seq<Die>, id: int, ctr: nat, n: nat)
    requires n <= |dies| && AllHave(Units(dies, id), ctr)
    ensures AllHave(Units(dies[..n], id), ctr)
    ensures n < |dies| && id in dies[n] ==> AllHave(dies[n][id], ctr)
    decreases |dies| - n
  {
    hide AllHave;
    if n < |dies| {
      AllHavePrefix(dies, id, ctr, n + 1);
      assert dies[..n + 1][..n] == dies[..n];
      AllHaveParts(Units(dies[..n], id), if id in dies[n] then dies[n][id] else [], ctr);
    } else {
      assert dies[..n] == dies;
    }
  }

  lemma UnitValuesAppend(a: seq<Unit>, b: seq<Unit>, ctr: nat)
    requires AllHave(a, ctr) && AllHave(b, ctr)
    ensures AllHave(a + b, ctr)
    ensures Sum(UnitValues(a + b, ctr)) == Sum(UnitValues(a, ctr)) + Sum(UnitValues(b, ctr))
  {
    hide Sum;
    assert UnitValues(a + b, ctr) == UnitValues(a, ctr) + UnitValues(b, ctr);
    SumAppend(UnitValues(a, ctr), UnitValues(b, ctr));
  }

  lemma NextDie(dies: seq<Die>, id: int, ctr: nat, d: nat)
    requires d < |dies| && AllHave(Units(dies, id), ctr)
    ensures AllHave(Units(dies[..d], id), ctr) && AllHave(Units(dies[..d + 1], id), ctr)
    ensures id in dies[d] ==> AllHave(dies[d][id], ctr)
    ensures Sum(UnitValues(Units(dies[..d + 1], id), ctr)) ==
            Sum(UnitValues(Units(dies[..d], id), ctr)) + if id in dies[d] then Sum(UnitValues(dies[d][id], ctr)) else 0
  {
    hide Sum, AllHave, UnitValues;
    AllHavePrefix(dies, id, ctr, d);
    AllHavePrefix(dies, id, ctr, d + 1);
    assert dies[..d + 1][..d] == dies[..d];
    if id in dies[d] {
      UnitValuesAppend(Units(dies[..d], id), dies[d][id], ctr);
    } else {
      assert Units(dies[..d + 1], id) == Units(dies[..d], id);
    }
  }

  method GetUncoreCounterState(uncorePMUs: seq<seq<Die>>, id: int, socket: nat, ctr: nat) returns (result: int)
    requires socket < |uncorePMUs| && ctr < MAX_COUNTERS ==> AllHave(Units(uncorePMUs[socket], id), ctr)
    ensures result == if socket < |uncorePMUs| && ctr < MAX_COUNTERS
                      then Wrap(Sum(UnitValues(Units(uncorePMUs[socket], id), ctr))) else 0
    ensures socket < |uncorePMUs| && ctr < MAX_COUNTERS ==>
              var units := Units(uncorePMUs[socket], id);
              result == Wrap(Sum(seq(|units|, u requires 0 <= u < |units| =>
                                   if units[u].Pmu? then units[u].values[ctr] else 0)))
  {
    result := 0;
    if socket < |uncorePMUs| && ctr < MAX_COUNTERS {
      hide Wrap, Sum, Units, UnitValues, AllHave;
      result := AddDies(uncorePMUs[socket], id, ctr);
      UnitValuesAre(Units(uncorePMUs[socket], id), ctr);
    }
  }

  /** The loop over the dies. */
  method AddDies(dies: seq<Die>, id: int, ctr: nat) returns (result: int)
    requires AllHave(Units(dies, id), ctr)
    ensures result == Wrap(Sum(UnitValues(Units(dies, id), ctr)))
  {
    result := 0;
    WrapZero();
    assert Units(dies[..0], id) == [] && Sum(UnitValues([], ctr)) == 0;
    AllHavePrefix(dies, id, ctr, 0);
    hide Wrap, Sum, Units, UnitValues, AllHave;
    for die := 0 to |dies|
      invariant AllHave(Units(dies[..die], id), ctr)
      invariant result == Wrap(Sum(UnitValues(Units(dies[..die], id), ctr)))
    {
      AllHavePrefix(dies, id, ctr, die + 1);
      NextDie(dies, id, ctr, die);
      if id in dies[die] {
        result := AddUnits(dies[die][id], ctr, result, Sum(UnitValues(Units(dies[..die], id), ctr)));
      }
    }
    assert dies[..|dies|] == dies;
  }

  /** The inner loop: adds the counter of every unit that is not null. */
  method AddUnits(pmus: seq<Unit>, ctr: nat, start: int, ghost before: int) returns (result: int)
    requires AllHave(pmus, ctr) && start == Wrap(before)
    ensures result == Wrap(before + Sum(UnitValues(pmus, ctr)))
  {
    result := start;
    for u := 0 to |pmus|
      invariant result == Wrap(before + Sum(UnitValues(pmus, ctr)[..u]))
    {
      assert UnitValues(pmus, ctr)[..u + 1][..u] == UnitValues(pmus, ctr)[..u];
      if pmus[u].Pmu? {
        WrapAdd(before + Sum(UnitValues(pmus, ctr)[..u]), pmus[u].values[ctr]);
        result := Wrap(result + pmus[u].values[ctr]);
      }
    }
    assert UnitValues(pmus, ctr)[..|pmus|] == UnitValues(pmus, ctr);
  }

  /** What a fresh counter state holds after readUncoreCounterValues. */
  function Sample(dies: seq<Die>): seq<DieCounters>
    requires FitsSocket(dies)
  {
    ReadDies([], dies)
  }

  predicate SameUnits(a: seq<Unit>, b: seq<Unit>) {
    |a| == |b| && forall u :: 0 <= u < |a| ==> a[u].Null? == b[u].Null?
  }

  /** The same PMUs at two moments: only register values differ. */
  predicate SamePmus(a: seq<Die>, b: seq<Die>) {
    && |a| == |b|
    && (forall d :: 0 <= d < |a| ==> a[d].Keys == b[d].Keys)
    && (forall d, id :: 0 <= d < |a| && id in a[d] ==> SameUnits(a[d][id], b[d][id]))
  }

  lemma SamplesComparable(s1: seq<Die>, s2: seq<Die>, id: int)
    requires FitsSocket(s1) && FitsSocket(s2) && SamePmus(s1, s2)
    ensures Comparable(Sample(s1), Sample(s2), id)
  {
    forall d | 0 <= d < |s1| && id in Sample(s2)[d] && id in Sample(s1)[d]
      ensures |Sample(s2)[d][id]| == |Sample(s1)[d][id]|
    {
      assert SameUnits(s1[d][id], s2[d][id]);
    }
  }

  /** Flat numbering: the rows of a sample are those of the concatenated unit vectors. */
  function FlatRows(sample: seq<DieCounters>, id: int): seq<Row> {
    if sample == [] then []
    else
      var n := |sample| - 1;
      FlatRows(sample[..n], id) + PriorRows(sample[n], id)
  }

  lemma {:induction false} FlatRowsAreUnits(s: seq<Die>, id: int)
    requires FitsSocket(s)
    ensures forall u :: 0 <= u < |Units(s, id)| ==> FitsUnit(Units(s, id)[u])
    ensures FlatRows(Sample(s), id) == ReadRows([], Units(s, id))
  {
    hide ReadRow, ReadRows;
    if s == [] {
      NoRows();
    } else {
      var n := |s| - 1;
      FlatRowsAreUnits(s[..n], id);
      assert Sample(s)[..n] == Sample(s[..n]);
      var last := if id in s[n] then s[n][id] else [];
      assert FitsDie(s[n]);
      ReadRowsAppend(Units(s[..n], id), last);
      NoRows();
      assert Sample(s)[n] == ReadDie(map[], s[n]);
    }
  }

  lemma {:induction false} PairsAreFlat(before: seq<DieCounters>, after: seq<DieCounters>, id: int)
    requires Comparable(before, after, id) && |before| == |after|
    requires forall d :: 0 <= d < |after| ==> (id in before[d] <==> id in after[d])
    ensures |FlatRows(before, id)| == |FlatRows(after, id)|
    ensures RowPairs(before, after, id) == Zip(FlatRows(before, id), FlatRows(after, id))
  {
    if after != [] {
      var n := |after| - 1;
      PairsAreFlat(before[..n], after[..n], id);
      RowPairsOfPrefix(before, after[..n], id, n);
      hide Zip;
      ZipAppend(FlatRows(before[..n], id), PriorRows(before[n], id), FlatRows(after[..n], id), PriorRows(after[n], id));
      NothingToZip();
    } else {
      NothingToZip();
    }
  }

  lemma ZipAppend(a: seq<Row>, more: seq<Row>, b: seq<Row>, further: seq<Row>)
    requires |a| == |b| && |more| == |further|
    ensures Zip(a + more, b + further) == Zip(a, b) + Zip(more, further)
  {
  }

  lemma NothingToZip()
    ensures Zip([], []) == []
  {
  }

  lemma NoRows()
    ensures ReadRows([], []) == []
  {
  }

  lemma ReadRowsAppend(a: seq<Unit>, b: seq<Unit>)
    requires forall u :: 0 <= u < |a| ==> FitsUnit(a[u])
    requires forall u :: 0 <= u < |b| ==> FitsUnit(b[u])
    ensures forall u :: 0 <= u < |a + b| ==> FitsUnit((a + b)[u])
    ensures ReadRows([], a + b) == ReadRows([], a) + ReadRows([], b)
  {
  }

  /** The pairs only look at as many dies of `before` as `after` has. */
  lemma {:induction false} RowPairsOfPrefix(before: seq<DieCounters>, after: seq<DieCounters>, id: int, n: nat)
    requires Comparable(before, after, id) && |after| <= n <= |before|
    ensures Comparable(before[..n], after, id)
    ensures RowPairs(before[..n], after, id) == RowPairs(before, after, id)
  {
    if after != [] {
      RowPairsOfPrefix(before, after[..|after| - 1], id, n);
    }
  }

  /** What getUncoreCounter returns for units 0..n-1. */
  function Differences(id: int, counter: nat, before: seq<DieCounters>, after: seq<DieCounters>, n: nat): seq<int>
    requires Comparable(before, after, id)
  {
    seq(n, u requires u >= 0 => UncoreCounter(id, u, counter, before, after))
  }

  /** The pairs of two samples, unit by unit. */
  lemma PairsAreUnits(s1: seq<Die>, s2: seq<Die>, id: int)
    requires FitsSocket(s1) && FitsSocket(s2) && SamePmus(s1, s2)
    ensures Comparable(Sample(s1), Sample(s2), id)
    ensures |Units(s1, id)| == |Units(s2, id)| == |RowPairs(Sample(s1), Sample(s2), id)|
    ensures forall u :: 0 <= u < |Units(s1, id)| ==>
              && FitsUnit(Units(s1, id)[u]) && FitsUnit(Units(s2, id)[u])
              && RowPairs(Sample(s1), Sample(s2), id)[u] ==
                   (ReadRow(ZeroRow(), Units(s1, id)[u]), ReadRow(ZeroRow(), Units(s2, id)[u]))
  {
    hide ReadRow, RowPairs, FlatRows, Units;
    SamplesComparable(s1, s2, id);
    FlatRowsAreUnits(s1, id);
    FlatRowsAreUnits(s2, id);
    PairsAreFlat(Sample(s1), Sample(s2), id);
  }

  /** Conservation: added over all units below getMaxNumOfUncorePMUs, the differences of two samples are
      the difference of getUncoreCounterState at the two moments, modulo 2^64. */
  lemma SumOverUnits(s1: seq<Die>, s2: seq<Die>, id: int, ctr: nat)
    requires FitsSocket(s1) && FitsSocket(s2) && SamePmus(s1, s2) && ctr < MAX_COUNTERS
    requires AllHave(Units(s1, id), ctr) && AllHave(Units(s2, id), ctr)
    ensures Comparable(Sample(s1), Sample(s2), id)
    ensures Wrap(Sum(Differences(id, ctr, Sample(s1), Sample(s2), |Units(s2, id)|))) ==
            Wrap(Wrap(Sum(UnitValues(Units(s2, id), ctr))) - Wrap(Sum(UnitValues(Units(s1, id), ctr))))
  {
    hide ReadRow, RowPairs, Units, Sample, Comparable, Wrap, Sum, UnitValue;
    PairsAreUnits(s1, s2, id);
    var u1, u2 := Units(s1, id), Units(s2, id);
    var a, b := UnitValues(u1, ctr), UnitValues(u2, ctr);
    var c := Differences(id, ctr, Sample(s1), Sample(s2), |u2|);
    forall u | 0 <= u < |u2| ensures c[u] == Wrap(b[u] - a[u]) {
      RowValue(u1[u], ctr);
      RowValue(u2[u], ctr);
    }
    SumOfDifferences(a, b, c);
  }

  lemma RowValue(u: Unit, ctr: nat)
    requires FitsUnit(u) && ctr < MAX_COUNTERS && (u.Pmu? ==> ctr < |u.values|)
    ensures ReadRow(ZeroRow(), u)[ctr] == UnitValue(u, ctr)
  {
  }

  lemma {:induction false} SumOfDifferences(a: seq<int>, b: seq<int>, c: seq<int>)
    requires |a| == |b| == |c| && forall i :: 0 <= i < |c| ==> c[i] == Wrap(b[i] - a[i])
    ensures Wrap(Sum(c)) == Wrap(Wrap(Sum(b)) - Wrap(Sum(a)))
  {
    if c != [] {
      var n := |c| - 1;
      SumOfDifferences(a[..n], b[..n], c[..n]);
      WrapDifferences(Sum(b[..n]), Sum(a[..n]), b[n], a[n], Sum(c[..n]));
    }
  }

  lemma WrapDifferences(x: int, y: int, b: int, a: int, c: int)
    requires Wrap(c) == Wrap(Wrap(x) - Wrap(y))
    ensures Wrap(c + Wrap(b - a)) == Wrap(Wrap(x + b) - Wrap(y + a))
  {
    hide Wrap;
    WrapAdd(c, b - a);
    WrapSub(x, y);
    WrapAdd(x - y, b - a);
    WrapSub(x + b, y + a);
    assert x - y + (b - a) == x + b - (y + a);
  }
}
