/** ServerUncorePMUs: the vectors of uncore boxes of one socket. */
module ServerUncorePmus {
  import opened Options
  import opened UncorePmu

  /** The boxes a vector of PMUs drives. */
  function BoxesOf(pmus: seq<Pmu>): set<nat> {
    set i | 0 <= i < |pmus| :: pmus[i].box
  }

  predicate Usable(pmus: seq<Pmu>, boxes: seq<Box>) {
    forall i :: 0 <= i < |pmus| ==> pmus[i].valid && pmus[i].box < |boxes|
  }

  // ---------------------------------------------------------------------------------------
  // Freezing, reading and releasing sets of boxes

  /** The boxes of `frozen` were frozen since `start`, for the others time has passed. */
  predicate FrozenSet(family: Family, start: seq<Box>, now: seq<Box>, frozen: set<nat>) {
    |now| == |start| &&
    forall b :: 0 <= b < |start| ==>
      if b in frozen then FrozenBy(family, start[b], now[b]) else TickedBox(family, start[b], now[b])
  }

  predicate ReleasedSet(family: Family, start: seq<Box>, now: seq<Box>, released: set<nat>) {
    |now| == |start| &&
    forall b :: 0 <= b < |start| ==>
      if b in released then ReleasedBy(family, start[b], now[b]) else TickedBox(family, start[b], now[b])
  }

  lemma FreezeOneMore(family: Family, start: seq<Box>, mid: seq<Box>, now: seq<Box>, frozen: set<nat>, b: nat)
    requires FrozenSet(family, start, mid, frozen) && b < |start|
    requires TickedExcept(family, mid, now, b) && FrozenBy(family, mid[b], now[b])
    ensures FrozenSet(family, start, now, frozen + {b})
  {
  }

  lemma ReleaseOneMore(family: Family, start: seq<Box>, mid: seq<Box>, now: seq<Box>, released: set<nat>, b: nat)
    requires ReleasedSet(family, start, mid, released) && b < |start|
    requires TickedExcept(family, mid, now, b) && ReleasedBy(family, mid[b], now[b])
    ensures ReleasedSet(family, start, now, released + {b})
  {
  }

  lemma FrozenSetTick(family: Family, start: seq<Box>, mid: seq<Box>, now: seq<Box>, frozen: set<nat>)
    requires FrozenSet(family, start, mid, frozen) && Ticked(family, mid, now)
    ensures FrozenSet(family, start, now, frozen)
    ensures forall b :: b in frozen && b < |start| ==> now[b] == mid[b]
  {
  }

  /** All boxes of the set were given this unit control value. */
  predicate Control(boxes: seq<Box>, some: set<nat>, value: bv32) {
    forall b :: b in some && b < |boxes| ==> boxes[b].unitControl == value
  }

  lemma ControlOneMore(family: Family, mid: seq<Box>, now: seq<Box>, some: set<nat>, b: nat, value: bv32)
    requires TickedExcept(family, mid, now, b) && Control(mid, some, value)
    requires b < |mid| && now[b].unitControl == value
    ensures Control(now, some + {b}, value)
  {
    assert forall i :: 0 <= i < |mid| && i != b ==> TickedBox(family, mid[i], now[i]);
  }

  lemma BoxesOfPrefix(pmus: seq<Pmu>, i: nat)
    requires i < |pmus|
    ensures BoxesOf(pmus[..i + 1]) == BoxesOf(pmus[..i]) + {pmus[i].box}
  {
    assert pmus[..i + 1] == pmus[..i] + [pmus[i]];
    forall b | b in BoxesOf(pmus[..i]) + {pmus[i].box} ensures b in BoxesOf(pmus[..i + 1]) {
      if b == pmus[i].box {
        assert pmus[..i + 1][i].box == b;
      } else {
        var j :| 0 <= j < i && pmus[..i][j].box == b;
        assert pmus[..i + 1][j].box == b;
      }
    }
  }

  method FreezeVector(hw: Hardware, pmus: seq<Pmu>, extra: bv32, ghost start: seq<Box>, ghost frozen: set<nat>)
    requires Usable(pmus, hw.boxes) && ExtraOk(hw.family, extra) && AllConsistent(hw.family, hw.boxes)
    requires FrozenSet(hw.family, start, hw.boxes, frozen)
    requires Control(hw.boxes, frozen, FreezeValue(hw.family, extra))
    modifies hw`boxes
    ensures |hw.boxes| == |old(hw.boxes)| && AllConsistent(hw.family, hw.boxes)
    ensures Control(hw.boxes, frozen + BoxesOf(pmus), FreezeValue(hw.family, extra))
    ensures FrozenSet(hw.family, start, hw.boxes, frozen + BoxesOf(pmus))
  {
    ghost var n := |start|;
    assert |hw.boxes| == n && frozen + BoxesOf(pmus[..0]) == frozen;
    hide FrozenSet, ExtraOk, AllConsistent, Control, FreezeValue;
    for i := 0 to |pmus|
      invariant |hw.boxes| == n
      invariant AllConsistent(hw.family, hw.boxes)
      invariant FrozenSet(hw.family, start, hw.boxes, frozen + BoxesOf(pmus[..i]))
      invariant Control(hw.boxes, frozen + BoxesOf(pmus[..i]), FreezeValue(hw.family, extra))
    {
      ghost var mid := hw.boxes;
      Freeze(hw, pmus[i], extra);
      FreezeOneMore(hw.family, start, mid, hw.boxes, frozen + BoxesOf(pmus[..i]), pmus[i].box);
      ControlOneMore(hw.family, mid, hw.boxes, frozen + BoxesOf(pmus[..i]), pmus[i].box,
                     FreezeValue(hw.family, extra));
      BoxesOfPrefix(pmus, i);
      assert frozen + BoxesOf(pmus[..i]) + {pmus[i].box} == frozen + BoxesOf(pmus[..i + 1]);
    }
    assert pmus[..|pmus|] == pmus;
  }

  method UnfreezeVector(hw: Hardware, pmus: seq<Pmu>, extra: bv32, ghost start: seq<Box>, ghost released: set<nat>)
    requires Usable(pmus, hw.boxes) && ExtraOk(hw.family, extra) && AllConsistent(hw.family, hw.boxes)
    requires ReleasedSet(hw.family, start, hw.boxes, released)
    requires Control(hw.boxes, released, UnfreezeValue(hw.family, extra))
    modifies hw`boxes
    ensures |hw.boxes| == |old(hw.boxes)| && AllConsistent(hw.family, hw.boxes)
    ensures Control(hw.boxes, released + BoxesOf(pmus), UnfreezeValue(hw.family, extra))
    ensures ReleasedSet(hw.family, start, hw.boxes, released + BoxesOf(pmus))
  {
    ghost var n := |start|;
    assert |hw.boxes| == n && released + BoxesOf(pmus[..0]) == released;
    hide ReleasedSet, ExtraOk, AllConsistent, Control, UnfreezeValue;
    for i := 0 to |pmus|
      invariant |hw.boxes| == n
      invariant AllConsistent(hw.family, hw.boxes)
      invariant ReleasedSet(hw.family, start, hw.boxes, released + BoxesOf(pmus[..i]))
      invariant Control(hw.boxes, released + BoxesOf(pmus[..i]), UnfreezeValue(hw.family, extra))
    {
      ghost var mid := hw.boxes;
      Unfreeze(hw, pmus[i], extra);
      ReleaseOneMore(hw.family, start, mid, hw.boxes, released + BoxesOf(pmus[..i]), pmus[i].box);
      ControlOneMore(hw.family, mid, hw.boxes, released + BoxesOf(pmus[..i]), pmus[i].box,
                     UnfreezeValue(hw.family, extra));
      BoxesOfPrefix(pmus, i);
      assert released + BoxesOf(pmus[..i]) + {pmus[i].box} == released + BoxesOf(pmus[..i + 1]);
    }
    assert pmus[..|pmus|] == pmus;
  }

  /** The number of counters that getServerUncoreCounterState asks every box for. */
  const MAX_COUNTERS := 8

  /** Every box has a fixed counter: getDRAMClocks and getHBMClocks read it unchecked. */
  predicate HaveFixed(pmus: seq<Pmu>, boxes: seq<Box>) {
    forall i :: 0 <= i < |pmus| ==> pmus[i].box < |boxes| && pmus[i].numCounters < |boxes[pmus[i].box].counters|
  }

  method GetPMUCounter(hw: Hardware, pmus: seq<Pmu>, id: nat, counter: nat) returns (result: nat)
    requires id < |pmus| ==> pmus[id].box < |hw.boxes|
    modifies hw`boxes
    ensures Ticked(hw.family, old(hw.boxes), hw.boxes)
    ensures result ==
            if id < |pmus| && counter < 4 && counter < pmus[id].numCounters
               && counter < |hw.boxes[pmus[id].box].counters|
            then hw.boxes[pmus[id].box].counters[counter] else 0
  {
    result := 0;
    if id < |pmus| && counter < 4 && counter < pmus[id].numCounters && counter < |hw.boxes[pmus[id].box].counters| {
      result := hw.ReadCounter(pmus[id].box, counter);
    }
  }

  /** The first n counter values of a box that stopped with the given counters: its counters, 0 for those
      it does not have. */
  predicate StoppedRow(row: seq<nat>, pmu: Pmu, stopped: seq<nat>, n: nat) {
    && |row| == n
    && forall c :: 0 <= c < n ==>
         row[c] == if c < 4 && c < pmu.numCounters && c < |stopped| then stopped[c] else 0
  }

  /** Reads every counter of one frozen box, while time passes. */
  method ReadBox(hw: Hardware, pmus: seq<Pmu>, id: nat, ghost start: seq<Box>, ghost frozen: set<nat>)
    returns (row: seq<nat>)
    requires id < |pmus| && pmus[id].box < |hw.boxes| && pmus[id].box in frozen
    requires FrozenSet(hw.family, start, hw.boxes, frozen)
    modifies hw`boxes
    ensures FrozenSet(hw.family, start, hw.boxes, frozen)
    ensures forall b :: b in frozen && b < |start| ==> hw.boxes[b] == old(hw.boxes)[b]
    ensures StoppedRow(row, pmus[id], hw.boxes[pmus[id].box].frozenAt, MAX_COUNTERS)
  {
    row := [];
    ghost var at := hw.boxes;
    for counter := 0 to MAX_COUNTERS
      invariant FrozenSet(hw.family, start, hw.boxes, frozen)
      invariant forall b :: b in frozen && b < |start| ==> hw.boxes[b] == at[b]
      invariant StoppedRow(row, pmus[id], at[pmus[id].box].frozenAt, counter)
    {
      ghost var mid := hw.boxes;
      var value := GetPMUCounter(hw, pmus, id, counter);
      FrozenSetTick(hw.family, start, mid, hw.boxes, frozen);
      row := row + [value];
    }
  }

  /** Reads every counter of a vector of frozen boxes. */
  method ReadVector(hw: Hardware, pmus: seq<Pmu>, ghost start: seq<Box>, ghost frozen: set<nat>)
    returns (rows: seq<seq<nat>>)
    requires Usable(pmus, hw.boxes) && BoxesOf(pmus) <= frozen
    requires FrozenSet(hw.family, start, hw.boxes, frozen)
    modifies hw`boxes
    ensures FrozenSet(hw.family, start, hw.boxes, frozen)
    ensures forall b :: b in frozen && b < |start| ==> hw.boxes[b] == old(hw.boxes)[b]
    ensures |rows| == |pmus|
    ensures forall i :: 0 <= i < |rows| ==> StoppedRow(rows[i], pmus[i], hw.boxes[pmus[i].box].frozenAt, MAX_COUNTERS)
  {
    rows := [];
    ghost var at := hw.boxes;
    for id := 0 to |pmus|
      invariant FrozenSet(hw.family, start, hw.boxes, frozen)
      invariant forall b :: b in frozen && b < |start| ==> hw.boxes[b] == at[b]
      invariant |rows| == id
      invariant forall i :: 0 <= i < id ==> StoppedRow(rows[i], pmus[i], at[pmus[i].box].frozenAt, MAX_COUNTERS)
    {
      assert pmus[id].box in BoxesOf(pmus);
      var row := ReadBox(hw, pmus, id, start, frozen);
      rows := rows + [row];
    }
    forall i | 0 <= i < |rows| ensures StoppedRow(rows[i], pmus[i], hw.boxes[pmus[i].box].frozenAt, MAX_COUNTERS) {
      assert pmus[i].box in BoxesOf(pmus);
    }
  }

  /** The fixed counters of a vector of boxes at the moments at which they stopped. */
  predicate StoppedClocks(clocks: seq<nat>, pmus: seq<Pmu>, boxes: seq<Box>) {
    && |clocks| == |pmus|
    && forall i :: 0 <= i < |clocks| ==>
         && pmus[i].box < |boxes| && pmus[i].numCounters < |boxes[pmus[i].box].frozenAt|
         && clocks[i] == boxes[pmus[i].box].frozenAt[pmus[i].numCounters]
  }

  /** Reads the fixed counter of every box of a frozen vector. */
  method ReadClocks(hw: Hardware, pmus: seq<Pmu>, ghost start: seq<Box>, ghost frozen: set<nat>)
    returns (clocks: seq<nat>)
    requires HaveFixed(pmus, hw.boxes) && BoxesOf(pmus) <= frozen
    requires FrozenSet(hw.family, start, hw.boxes, frozen)
    modifies hw`boxes
    ensures FrozenSet(hw.family, start, hw.boxes, frozen)
    ensures forall b :: b in frozen && b < |start| ==> hw.boxes[b] == old(hw.boxes)[b]
    ensures StoppedClocks(clocks, pmus, hw.boxes)
  {
    clocks := [];
    ghost var at := hw.boxes;
    for id := 0 to |pmus|
      invariant FrozenSet(hw.family, start, hw.boxes, frozen)
      invariant forall b :: b in frozen && b < |start| ==> hw.boxes[b] == at[b]
      invariant |clocks| == id
      invariant forall i :: 0 <= i < id ==> clocks[i] == at[pmus[i].box].counters[pmus[i].numCounters]
    {
      assert pmus[id].box in BoxesOf(pmus);
      ghost var mid := hw.boxes;
      var value := hw.ReadCounter(pmus[id].box, pmus[id].numCounters);
      FrozenSetTick(hw.family, start, mid, hw.boxes, frozen);
      clocks := clocks + [value];
    }
    forall i | 0 <= i < |clocks| ensures pmus[i].box in frozen && at[pmus[i].box].frozenAt == at[pmus[i].box].counters {
      assert pmus[i].box in BoxesOf(pmus);
    }
  }

  lemma SameStoppedClocks(clocks: seq<nat>, pmus: seq<Pmu>, x: seq<Box>, y: seq<Box>, boxes: set<nat>)
    requires StoppedClocks(clocks, pmus, x) && BoxesOf(pmus) <= boxes && |x| == |y|
    requires forall b :: b in boxes && b < |x| ==> x[b].frozenAt == y[b].frozenAt
    ensures StoppedClocks(clocks, pmus, y)
  {
    forall i | 0 <= i < |clocks| ensures x[pmus[i].box].frozenAt == y[pmus[i].box].frozenAt {
      assert pmus[i].box in BoxesOf(pmus);
    }
  }

  /** The boxes of several vectors. */
  function AllBoxes(vectors: seq<seq<Pmu>>): set<nat> {
    if vectors == [] then {} else AllBoxes(vectors[..|vectors| - 1]) + BoxesOf(vectors[|vectors| - 1])
  }

  lemma {:induction false} VectorInAllBoxes(vectors: seq<seq<Pmu>>, v: nat)
    requires v < |vectors|
    ensures BoxesOf(vectors[v]) <= AllBoxes(vectors)
  {
    if v < |vectors| - 1 {
      VectorInAllBoxes(vectors[..|vectors| - 1], v);
    }
  }

  /** A box over one whole freeze-read-unfreeze bracket: it was stopped exactly once, at counter
      values between those before and after, and is counting again. */
  predicate Bracketed(family: Family, before: Box, after: Box) {
    && !Frozen(family, after)
    && after.controls == before.controls && after.stuck == before.stuck
    && after.freezes == before.freezes + 1
    && NoLess(before.counters, after.frozenAt) && NoLess(after.frozenAt, after.counters)
  }

  predicate AllBracketed(family: Family, start: seq<Box>, now: seq<Box>, boxes: set<nat>) {
    |now| == |start| &&
    forall b :: 0 <= b < |start| ==>
      if b in boxes then Bracketed(family, start[b], now[b]) else TickedBox(family, start[b], now[b])
  }

  lemma BracketResult(family: Family, start: seq<Box>, stopped: seq<Box>, now: seq<Box>, boxes: set<nat>)
    requires forall b :: b in boxes && b < |start| ==> !Frozen(family, start[b])
    requires FrozenSet(family, start, stopped, boxes) && ReleasedSet(family, stopped, now, boxes)
    ensures AllBracketed(family, start, now, boxes) && |stopped| == |start|
    ensures forall b :: b in boxes && b < |start| ==> now[b].frozenAt == stopped[b].frozenAt
  {
  }

  /** The counter values of all boxes of all vectors at the moments at which they stopped. */
  predicate StoppedValues(values: seq<seq<seq<nat>>>, vectors: seq<seq<Pmu>>, boxes: seq<Box>) {
    && |values| == |vectors|
    && forall v :: 0 <= v < |values| ==> StoppedRows(values[v], vectors[v], boxes)
  }

  predicate StoppedRows(rows: seq<seq<nat>>, pmus: seq<Pmu>, boxes: seq<Box>) {
    && |rows| == |pmus|
    && forall i :: 0 <= i < |rows| ==>
         pmus[i].box < |boxes| && StoppedRow(rows[i], pmus[i], boxes[pmus[i].box].frozenAt, MAX_COUNTERS)
  }

  /** Reads every counter of every vector while all their boxes are frozen. */
  method ReadVectors(hw: Hardware, vectors: seq<seq<Pmu>>, ghost start: seq<Box>) returns (values: seq<seq<seq<nat>>>)
    requires forall v :: 0 <= v < |vectors| ==> Usable(vectors[v], hw.boxes)
    requires FrozenSet(hw.family, start, hw.boxes, AllBoxes(vectors))
    modifies hw`boxes
    ensures FrozenSet(hw.family, start, hw.boxes, AllBoxes(vectors))
    ensures StoppedValues(values, vectors, hw.boxes)
    ensures forall v, i, c :: 0 <= v < |vectors| && 0 <= i < |vectors[v]| && 0 <= c < 8 ==>
              var pmu := vectors[v][i];
              && |values| == |vectors| && |values[v]| == |vectors[v]| && |values[v][i]| == 8
              && pmu.box < |hw.boxes|
              && var stopped := hw.boxes[pmu.box].frozenAt;
                 values[v][i][c] == if c < 4 && c < pmu.numCounters && c < |stopped| then stopped[c] else 0
    ensures forall b :: b in AllBoxes(vectors) && b < |start| ==> hw.boxes[b] == old(hw.boxes)[b]
  {
    values := [];
    ghost var boxes := AllBoxes(vectors);
    ghost var at := hw.boxes;
    for v := 0 to |vectors|
      invariant |hw.boxes| == |start| && FrozenSet(hw.family, start, hw.boxes, boxes)
      invariant forall b :: b in boxes && b < |start| ==> hw.boxes[b] == at[b]
      invariant |values| == v && forall w :: 0 <= w < v ==> StoppedRows(values[w], vectors[w], at)
    {
      VectorInAllBoxes(vectors, v);
      var rows := ReadVector(hw, vectors[v], start, boxes);
      assert StoppedRows(rows, vectors[v], hw.boxes);
      SameStoppedRows(rows, vectors[v], hw.boxes, at, boxes);
      values := values + [rows];
    }
    SameStoppedValues(values, vectors, at, hw.boxes);
  }

  lemma SameStoppedValues(values: seq<seq<seq<nat>>>, vectors: seq<seq<Pmu>>, x: seq<Box>, y: seq<Box>)
    requires StoppedValues(values, vectors, x) && |x| == |y|
    requires forall b :: b in AllBoxes(vectors) && b < |x| ==> x[b].frozenAt == y[b].frozenAt
    ensures StoppedValues(values, vectors, y)
  {
    forall v | 0 <= v < |values| ensures StoppedRows(values[v], vectors[v], y) {
      VectorInAllBoxes(vectors, v);
      SameStoppedRows(values[v], vectors[v], x, y, AllBoxes(vectors));
    }
  }

  lemma FrozenSetConsistent(family: Family, start: seq<Box>, now: seq<Box>, frozen: set<nat>)
    requires AllConsistent(family, start) && FrozenSet(family, start, now, frozen)
    ensures |now| == |start| && AllConsistent(family, now)
  {
  }

  lemma StillFixed(family: Family, start: seq<Box>, now: seq<Box>, pmus: seq<Pmu>, frozen: set<nat>)
    requires HaveFixed(pmus, start) && FrozenSet(family, start, now, frozen)
    ensures HaveFixed(pmus, now)
  {
  }

  lemma FrozenKeepsFixed(family: Family, start: seq<Box>, x: seq<Box>, y: seq<Box>, pmus: seq<Pmu>, frozen: set<nat>)
    requires HaveFixed(pmus, x) && FrozenSet(family, start, x, frozen) && FrozenSet(family, start, y, frozen)
    ensures HaveFixed(pmus, y)
  {
  }

  lemma SameStoppedRows(rows: seq<seq<nat>>, pmus: seq<Pmu>, x: seq<Box>, y: seq<Box>, boxes: set<nat>)
    requires StoppedRows(rows, pmus, x) && BoxesOf(pmus) <= boxes && |x| == |y|
    requires forall b :: b in boxes && b < |x| ==> x[b].frozenAt == y[b].frozenAt
    ensures StoppedRows(rows, pmus, y)
  {
    forall i | 0 <= i < |rows| ensures StoppedRow(rows[i], pmus[i], y[pmus[i].box].frozenAt, MAX_COUNTERS) {
      assert pmus[i].box in BoxesOf(pmus);
    }
  }

  /** The reads between freezing and unfreezing: all counters, and the clocks of the first two vectors. */
  method ReadFrozen(hw: Hardware, vectors: seq<seq<Pmu>>, ghost start: seq<Box>)
    returns (values: seq<seq<seq<nat>>>, clocks0: seq<nat>, clocks1: seq<nat>)
    requires |vectors| >= 2 && HaveFixed(vectors[0], hw.boxes) && HaveFixed(vectors[1], hw.boxes)
    requires forall v :: 0 <= v < |vectors| ==> Usable(vectors[v], hw.boxes)
    requires FrozenSet(hw.family, start, hw.boxes, AllBoxes(vectors)) && AllConsistent(hw.family, start)
    modifies hw`boxes
    ensures |hw.boxes| == |start| && AllConsistent(hw.family, hw.boxes)
    ensures FrozenSet(hw.family, start, hw.boxes, AllBoxes(vectors))
    ensures StoppedValues(values, vectors, hw.boxes)
    ensures StoppedClocks(clocks0, vectors[0], hw.boxes) && StoppedClocks(clocks1, vectors[1], hw.boxes)
  {
    hide AllBoxes, BoxesOf, StoppedClocks, StoppedValues, FrozenSet, AllConsistent, HaveFixed, Usable;
    ghost var all := AllBoxes(vectors);
    ghost var first := hw.boxes;
    VectorInAllBoxes(vectors, 0);
    VectorInAllBoxes(vectors, 1);
    FrozenSetConsistent(hw.family, start, first, all);
    values := ReadVectors(hw, vectors, start);
    ghost var second := hw.boxes;
    FrozenKeepsFixed(hw.family, start, first, second, vectors[0], all);
    FrozenKeepsFixed(hw.family, start, first, second, vectors[1], all);
    clocks0 := ReadClocks(hw, vectors[0], start, all);
    ghost var third := hw.boxes;
    FrozenKeepsFixed(hw.family, start, second, third, vectors[1], all);
    clocks1 := ReadClocks(hw, vectors[1], start, all);
    FrozenSetConsistent(hw.family, start, second, all);
    FrozenSetConsistent(hw.family, start, third, all);
    FrozenSetConsistent(hw.family, start, hw.boxes, all);
    SameStoppedClocks(clocks0, vectors[0], third, hw.boxes, all);
    SameStoppedValues(values, vectors, second, hw.boxes);
  }

  // ---------------------------------------------------------------------------------------
  // Programming the link boxes and deleting those that do not answer

  function ValidOnes(pmus: seq<Pmu>): seq<Pmu> {
    if pmus == [] then [] else (if pmus[0].valid then [pmus[0]] else []) + ValidOnes(pmus[1..])
  }

  /** The boxes, in order, whose unit control register reads back what is written to it. */
  function Answering(family: Family, boxes: seq<Box>, pmus: seq<Pmu>, extra: bv32): seq<Pmu>
    requires Usable(pmus, boxes)
  {
    if pmus == [] then [] else
      (if ReadsBack(family, boxes[pmus[0].box], extra) then [pmus[0]] else [])
      + Answering(family, boxes, pmus[1..], extra)
  }

  lemma {:induction false} ValidOnesIdentity(pmus: seq<Pmu>)
    requires forall i :: 0 <= i < |pmus| ==> pmus[i].valid
    ensures ValidOnes(pmus) == pmus
  {
    if pmus != [] {
      ValidOnesIdentity(pmus[1..]);
    }
  }

  /** Erasing an invalid element does not change the valid ones. */
  lemma {:induction false} ValidOnesErase(pmus: seq<Pmu>, i: nat)
    requires i < |pmus| && !pmus[i].valid
    ensures ValidOnes(pmus[..i] + pmus[i + 1..]) == ValidOnes(pmus)
  {
    var erased := pmus[..i] + pmus[i + 1..];
    if i == 0 {
      assert erased == pmus[1..];
    } else {
      assert erased[1..] == pmus[1..][..i - 1] + pmus[1..][i..];
      ValidOnesErase(pmus[1..], i - 1);
    }
  }

  lemma {:induction false} ValidOnesAnswer(
      family: Family, boxes: seq<Box>, before: seq<Pmu>, after: seq<Pmu>, extra: bv32)
    requires Usable(before, boxes) && |after| == |before|
    requires forall i :: 0 <= i < |before| ==>
               after[i] == before[i].(valid := ReadsBack(family, boxes[before[i].box], extra))
    ensures ValidOnes(after) == Answering(family, boxes, before, extra)
  {
    if before != [] {
      ValidOnesAnswer(family, boxes, before[1..], after[1..], extra);
    }
  }

  predicate DistinctBoxes(pmus: seq<Pmu>) {
    forall i, j :: 0 <= i < j < |pmus| ==> pmus[i].box != pmus[j].box
  }

  predicate AllFit(pmus: seq<Pmu>, boxes: seq<Box>) {
    forall i :: 0 <= i < |pmus| ==> Fits(pmus[i], boxes)
  }

  /** A link box that answers has been programmed since `start`. */
  predicate XpiDone(family: Family, start: Box, now: Box, pmu: Pmu, events: seq<bv64>, extra: bv32)
    requires |start.controls| == |pmu.controlPresent|
  {
    && now.stuck == start.stuck
    && (ReadsBack(family, start, extra) ==> IsProgrammed(family, start, now, pmu, events))
  }

  /** initFreeze with read-back check and program, for one link box. */
  method ProgramXpiBox(hw: Hardware, pmu: Pmu, events: seq<bv64>, extra: bv32) returns (result: Pmu)
    requires pmu.valid && Fits(pmu, hw.boxes) && AllConsistent(hw.family, hw.boxes)
    requires extra != 0 && ExtraOk(hw.family, extra)
    modifies hw
    ensures AllConsistent(hw.family, hw.boxes)
    ensures TickedExcept(hw.family, old(hw.boxes), hw.boxes, pmu.box)
    ensures result == pmu.(valid := ReadsBack(hw.family, old(hw.boxes)[pmu.box], extra))
    ensures XpiDone(hw.family, old(hw.boxes)[pmu.box], hw.boxes[pmu.box], pmu, events, extra)
    ensures |hw.boxes[pmu.box].controls| == |old(hw.boxes)[pmu.box].controls|
    ensures hw.liveWrites == old(hw.liveWrites)
  {
    ghost var start := hw.boxes;
    hide TickedExcept, AllConsistent, ExtraOk, ReadsBack, Frozen;
    var ok;
    result, ok := InitFreeze(hw, pmu, extra, true);
    if ok {
      ghost var mid := hw.boxes;
      Program(hw, result, Some(events), extra);
      TickedExceptTransitive(hw.family, start, mid, hw.boxes, pmu.box);
    }
  }

  lemma DoneAndTicked(family: Family, start: Box, mid: Box, now: Box, pmu: Pmu, events: seq<bv64>, extra: bv32)
    requires |start.controls| == |pmu.controlPresent|
    requires XpiDone(family, start, mid, pmu, events, extra) && TickedBox(family, mid, now)
    ensures XpiDone(family, start, now, pmu, events, extra)
  {
  }

  lemma TickedThenDone(family: Family, start: Box, mid: Box, now: Box, pmu: Pmu, events: seq<bv64>, extra: bv32)
    requires |start.controls| == |pmu.controlPresent|
    requires TickedBox(family, start, mid) && XpiDone(family, mid, now, pmu, events, extra)
    ensures XpiDone(family, start, now, pmu, events, extra)
    ensures ReadsBack(family, mid, extra) == ReadsBack(family, start, extra)
  {
  }

  lemma {:induction false} AnsweringElements(family: Family, boxes: seq<Box>, pmus: seq<Pmu>, extra: bv32)
    requires Usable(pmus, boxes)
    ensures forall pmu :: pmu in Answering(family, boxes, pmus, extra) <==>
              pmu in pmus && ReadsBack(family, boxes[pmu.box], extra)
    ensures Usable(Answering(family, boxes, pmus, extra), boxes)
  {
    if pmus != [] {
      AnsweringElements(family, boxes, pmus[1..], extra);
    }
  }

  /** A box remains if and only if it was there and answered: a box of the newer families, a working one,
      and an absent one whose valid bits happen to read as they were written. */
  lemma AnsweringMembers(family: Family, boxes: seq<Box>, pmus: seq<Pmu>, extra: bv32, pmu: Pmu)
    requires Usable(pmus, boxes)
    ensures pmu in Answering(family, boxes, pmus, extra) <==>
            && pmu in pmus
            && var stuck := boxes[pmu.box].stuck;
               family.SprLike? || stuck.None? || ValidBits(extra) == ValidBits(stuck.value)
  {
    hide Answering, ReadsBack, ValidBits;
    AnsweringElements(family, boxes, pmus, extra);
    if pmu in pmus {
      ReadsBackBits(family, boxes[pmu.box], extra);
    }
  }

  /** The kept elements are those at the positions idx, in the same order. */
  predicate InOrder(idx: seq<nat>, pmus: seq<Pmu>, kept: seq<Pmu>) {
    && |idx| == |kept|
    && (forall k :: 0 <= k < |idx| ==> idx[k] < |pmus| && kept[k] == pmus[idx[k]])
    && (forall j, k :: 0 <= j < k < |idx| ==> idx[j] < idx[k])
  }

  lemma InOrderNext(idx: seq<nat>, pmus: seq<Pmu>, kept: seq<Pmu>) returns (next: seq<nat>)
    requires pmus != [] && InOrder(idx, pmus[1..], kept)
    ensures InOrder(next, pmus, kept) && forall k :: 0 <= k < |next| ==> next[k] > 0
  {
    next := seq(|idx|, k requires 0 <= k < |idx| => idx[k] + 1);
  }

  lemma InOrderFirst(idx: seq<nat>, pmus: seq<Pmu>, kept: seq<Pmu>)
    requires pmus != [] && InOrder(idx, pmus, kept) && forall k :: 0 <= k < |idx| ==> idx[k] > 0
    ensures InOrder([0] + idx, pmus, [pmus[0]] + kept)
  {
  }

  /** The remaining boxes keep their order; idx are their positions before. */
  lemma {:induction false} AnsweringInOrder(family: Family, boxes: seq<Box>, pmus: seq<Pmu>, extra: bv32)
    returns (idx: seq<nat>)
    requires Usable(pmus, boxes)
    ensures InOrder(idx, pmus, Answering(family, boxes, pmus, extra))
  {
    if pmus == [] {
      idx := [];
    } else {
      hide ReadsBack, InOrder;
      idx := AnsweringInOrder(family, boxes, pmus[1..], extra);
      var rest := Answering(family, boxes, pmus[1..], extra);
      idx := InOrderNext(idx, pmus, rest);
      if ReadsBack(family, boxes[pmus[0].box], extra) {
        InOrderFirst(idx, pmus, rest);
        idx := [0] + idx;
      } else {
        assert [] + rest == rest;
      }
    }
  }

  /** Every link box that answers has been programmed; for boxes that are not link boxes only time
      has passed. */
  predicate XpiProgrammed(
      family: Family, start: seq<Box>, now: seq<Box>, pmus: seq<Pmu>, events: seq<bv64>, extra: bv32)
    requires AllFit(pmus, start)
  {
    && |now| == |start|
    && (forall i :: 0 <= i < |pmus| ==> XpiDone(family, start[pmus[i].box], now[pmus[i].box], pmus[i], events, extra))
    && (forall b :: 0 <= b < |start| && b !in BoxesOf(pmus) ==> TickedBox(family, start[b], now[b]))
  }

  /** What a programmed link box holds. */
  lemma XpiControls(family: Family, start: seq<Box>, now: seq<Box>, pmus: seq<Pmu>, events: seq<bv64>, extra: bv32,
                    pmu: Pmu)
    requires AllFit(pmus, start) && XpiProgrammed(family, start, now, pmus, events, extra)
    requires pmu in pmus && pmu.box < |start| && ReadsBack(family, start[pmu.box], extra)
    ensures pmu.box < |now| && !Frozen(family, now[pmu.box])
    ensures |now[pmu.box].controls| == |start[pmu.box].controls| == |pmu.controlPresent|
    ensures forall c :: 0 <= c < |pmu.controlPresent| ==>
              now[pmu.box].controls[c] ==
              match family
              case SprLike => if c < |events| && pmu.controlPresent[c] then events[c] else 0
              case Default =>
                if c < |events| && pmu.controlPresent[c] then 0x40_0000 | events[c] else start[pmu.box].controls[c]
  {
    hide ReadsBack, Frozen;
    var i :| 0 <= i < |pmus| && pmus[i] == pmu;
    assert XpiDone(family, start[pmus[i].box], now[pmus[i].box], pmus[i], events, extra);
  }

  lemma XpiResult(family: Family, start: seq<Box>, now: seq<Box>, pmus: seq<Pmu>, events: seq<bv64>, extra: bv32)
    requires Usable(pmus, start) && AllFit(pmus, start) && XpiProgrammed(family, start, now, pmus, events, extra)
    ensures var kept := Answering(family, start, pmus, extra);
            && |now| == |start|
            && (forall i :: 0 <= i < |kept| ==> kept[i].box < |start| && kept[i].box < |now|
                                                && !Frozen(family, now[kept[i].box]))
            && (forall i, c :: 0 <= i < |kept| && 0 <= c < |kept[i].controlPresent| ==>
                  var b := kept[i].box;
                  && b < |start| && b < |now|
                  && |now[b].controls| == |start[b].controls| == |kept[i].controlPresent|
                  && now[b].controls[c] ==
                     match family
                     case SprLike => if c < |events| && kept[i].controlPresent[c] then events[c] else 0
                     case Default =>
                       if c < |events| && kept[i].controlPresent[c] then 0x40_0000 | events[c]
                       else start[b].controls[c])
  {
    AnsweringElements(family, start, pmus, extra);
    assert |now| == |start|;
    var kept := Answering(family, start, pmus, extra);
    hide Answering, XpiProgrammed, ReadsBack, Frozen;
    forall i | 0 <= i < |kept|
      ensures kept[i].box < |start| && kept[i].box < |now| && !Frozen(family, now[kept[i].box])
    {
      assert kept[i] in kept;
      XpiControls(family, start, now, pmus, events, extra, kept[i]);
    }
    forall i, c | 0 <= i < |kept| && 0 <= c < |kept[i].controlPresent|
      ensures var b := kept[i].box;
              && b < |start| && b < |now|
              && |now[b].controls| == |start[b].controls| == |kept[i].controlPresent|
              && now[b].controls[c] ==
                 match family
                 case SprLike => if c < |events| && kept[i].controlPresent[c] then events[c] else 0
                 case Default =>
                   if c < |events| && kept[i].controlPresent[c] then 0x40_0000 | events[c]
                   else start[b].controls[c]
    {
      assert kept[i] in kept;
      XpiControls(family, start, now, pmus, events, extra, kept[i]);
    }
  }

  /** Midway through the loop of programXPI: the first i link boxes are done. */
  predicate XpiProgress(
      family: Family, start: seq<Box>, now: seq<Box>, pmus: seq<Pmu>, events: seq<bv64>, extra: bv32, i: nat)
    requires AllFit(pmus, start)
  {
    && |now| == |start|
    && (forall j :: 0 <= j < |pmus| ==>
          if j < i then XpiDone(family, start[pmus[j].box], now[pmus[j].box], pmus[j], events, extra)
          else TickedBox(family, start[pmus[j].box], now[pmus[j].box]))
    && (forall b :: 0 <= b < |start| && b !in BoxesOf(pmus) ==> TickedBox(family, start[b], now[b]))
  }

  lemma XpiStep(
      family: Family, start: seq<Box>, mid: seq<Box>, now: seq<Box>,
      pmus: seq<Pmu>, events: seq<bv64>, extra: bv32, i: nat)
    requires AllFit(pmus, start) && DistinctBoxes(pmus) && i < |pmus|
    requires XpiProgress(family, start, mid, pmus, events, extra, i)
    requires TickedExcept(family, mid, now, pmus[i].box) && AllFit(pmus, mid)
    requires XpiDone(family, mid[pmus[i].box], now[pmus[i].box], pmus[i], events, extra)
    ensures XpiProgress(family, start, now, pmus, events, extra, i + 1)
    ensures ReadsBack(family, mid[pmus[i].box], extra) == ReadsBack(family, start[pmus[i].box], extra)
  {
    hide ReadsBack, Frozen, IsProgrammed, XpiDone;
    assert pmus[i].box in BoxesOf(pmus);
    TickedThenDone(family, start[pmus[i].box], mid[pmus[i].box], now[pmus[i].box], pmus[i], events, extra);
    forall j | 0 <= j < i
      ensures XpiDone(family, start[pmus[j].box], now[pmus[j].box], pmus[j], events, extra)
    {
      DoneAndTicked(family, start[pmus[j].box], mid[pmus[j].box], now[pmus[j].box], pmus[j], events, extra);
    }
  }

  /** The loop of programXPI over the link boxes. */
  method ProgramXpiVector(hw: Hardware, pmus: seq<Pmu>, events: seq<bv64>, extra: bv32) returns (result: seq<Pmu>)
    requires Usable(pmus, hw.boxes) && AllFit(pmus, hw.boxes) && DistinctBoxes(pmus)
    requires extra != 0 && ExtraOk(hw.family, extra) && AllConsistent(hw.family, hw.boxes)
    modifies hw
    ensures AllConsistent(hw.family, hw.boxes)
    ensures |result| == |pmus|
    ensures forall i :: 0 <= i < |pmus| ==>
              result[i] == pmus[i].(valid := ReadsBack(hw.family, old(hw.boxes)[pmus[i].box], extra))
    ensures XpiProgrammed(hw.family, old(hw.boxes), hw.boxes, pmus, events, extra)
    ensures hw.liveWrites == old(hw.liveWrites)
  {
    result := pmus;
    ghost var start := hw.boxes;
    hide ReadsBack, ExtraOk, AllConsistent, TickedExcept, XpiDone;
    for i := 0 to |pmus|
      invariant AllConsistent(hw.family, hw.boxes) && hw.liveWrites == old(hw.liveWrites)
      invariant AllFit(pmus, hw.boxes) && XpiProgress(hw.family, start, hw.boxes, pmus, events, extra, i)
      invariant |result| == |pmus|
      invariant forall j :: 0 <= j < i ==>
                  result[j] == pmus[j].(valid := ReadsBack(hw.family, start[pmus[j].box], extra))
      invariant forall j :: i <= j < |pmus| ==> result[j] == pmus[j]
    {
      ghost var mid := hw.boxes;
      var pmu := ProgramXpiBox(hw, result[i], events, extra);
      result := result[i := pmu];
      XpiStep(hw.family, start, mid, hw.boxes, pmus, events, extra, i);
      StillFit(hw.family, mid, hw.boxes, pmus, pmus[i].box);
    }
  }

  lemma StillFit(family: Family, before: seq<Box>, after: seq<Box>, pmus: seq<Pmu>, b: nat)
    requires AllFit(pmus, before) && TickedExcept(family, before, after, b) && b < |before|
    requires |after[b].controls| == |before[b].controls|
    ensures AllFit(pmus, after)
  {
  }

  class ServerUncorePMUs {
    const hw: Hardware
    const isSkx: bool
    const hasUPI: bool
    var imcPMUs: seq<Pmu>
    var edcPMUs: seq<Pmu>
    var xpiPMUs: seq<Pmu>
    var m3upiPMUs: seq<Pmu>
    var m2mPMUs: seq<Pmu>
    var haPMUs: seq<Pmu>
    var hbm_m2mPMUs: seq<Pmu>

    constructor (hw: Hardware, isSkx: bool, hasUPI: bool, pmus: seq<seq<Pmu>>)
      requires |pmus| == 7
      ensures this.hw == hw && this.isSkx == isSkx && this.hasUPI == hasUPI
      ensures AllPMUs() == pmus
    {
      this.hw, this.isSkx, this.hasUPI := hw, isSkx, hasUPI;
      imcPMUs, edcPMUs, xpiPMUs, m3upiPMUs := pmus[0], pmus[1], pmus[2], pmus[3];
      m2mPMUs, haPMUs, hbm_m2mPMUs := pmus[4], pmus[5], pmus[6];
    }

    /** allPMUs */
    function AllPMUs(): seq<seq<Pmu>>
      reads this
    {
      [imcPMUs, edcPMUs, xpiPMUs, m3upiPMUs, m2mPMUs, haPMUs, hbm_m2mPMUs]
    }

    function FreezeExtra(): bv32 {
      if isSkx then UNC_PMON_UNIT_CTL_RSV else UNC_PMON_UNIT_CTL_FRZ_EN
    }

    function XpiExtra(): bv32 {
      if hasUPI then UNC_PMON_UNIT_CTL_RSV else UNC_PMON_UNIT_CTL_FRZ_EN
    }

    /** Every box has its unit control register: the callers of freeze and unfreeze need it. */
    predicate Ready()
      reads this, hw
    {
      && AllConsistent(hw.family, hw.boxes)
      && Usable(imcPMUs, hw.boxes) && Usable(edcPMUs, hw.boxes) && Usable(xpiPMUs, hw.boxes)
      && Usable(m3upiPMUs, hw.boxes) && Usable(m2mPMUs, hw.boxes) && Usable(haPMUs, hw.boxes)
      && Usable(hbm_m2mPMUs, hw.boxes)
    }

    method FreezeCounters()
      requires Ready()
      modifies hw`boxes
      ensures Ready()
      ensures FrozenSet(hw.family, old(hw.boxes), hw.boxes, AllBoxes(AllPMUs()))
      ensures forall b :: b in AllBoxes(AllPMUs()) && b < |hw.boxes| ==>
                hw.boxes[b].unitControl ==
                match hw.family case SprLike => 0x1 case Default => if isSkx then 0x3_0100 else 0x1_0100
    {
      CallersPassGoodExtra();
      var all := AllPMUs();
      ghost var start := hw.boxes;
      for v := 0 to 7
        invariant |hw.boxes| == |start| && AllConsistent(hw.family, hw.boxes)
        invariant FrozenSet(hw.family, start, hw.boxes, AllBoxes(all[..v]))
        invariant Control(hw.boxes, AllBoxes(all[..v]), FreezeValue(hw.family, FreezeExtra()))
      {
        FreezeVector(hw, all[v], FreezeExtra(), start, AllBoxes(all[..v]));
        assert all[..v + 1][..v] == all[..v];
      }
      assert all[..7] == all;
    }

    method UnfreezeCounters()
      requires Ready()
      modifies hw`boxes
      ensures Ready()
      ensures ReleasedSet(hw.family, old(hw.boxes), hw.boxes, AllBoxes(AllPMUs()))
      ensures forall b :: b in AllBoxes(AllPMUs()) && b < |hw.boxes| ==>
                hw.boxes[b].unitControl ==
                match hw.family case SprLike => 0x0 case Default => if isSkx then 0x3_0000 else 0x1_0000
    {
      CallersPassGoodExtra();
      var all := AllPMUs();
      ghost var start := hw.boxes;
      for v := 0 to 7
        invariant |hw.boxes| == |start| && AllConsistent(hw.family, hw.boxes)
        invariant ReleasedSet(hw.family, start, hw.boxes, AllBoxes(all[..v]))
        invariant Control(hw.boxes, AllBoxes(all[..v]), UnfreezeValue(hw.family, FreezeExtra()))
      {
        UnfreezeVector(hw, all[v], FreezeExtra(), start, AllBoxes(all[..v]));
        assert all[..v + 1][..v] == all[..v];
      }
      assert all[..7] == all;
    }

    /** The bracket of getServerUncoreCounterState: freeze all boxes, read all counters and the clocks,
        unfreeze all boxes. If no other bracket holds the boxes, every value read is the box's value at
        the one moment at which the bracket stopped it, whatever is counted meanwhile, and afterwards
        every box counts again. */
    method ReadBracket() returns (values: seq<seq<seq<nat>>>, dramClocks: seq<nat>, hbmClocks: seq<nat>)
      requires Ready() && HaveFixed(imcPMUs, hw.boxes) && HaveFixed(edcPMUs, hw.boxes)
      requires forall b :: b in AllBoxes(AllPMUs()) && b < |hw.boxes| ==> !Frozen(hw.family, hw.boxes[b])
      modifies hw`boxes
      ensures Ready()
      ensures |values| == 7
      ensures forall v, i, c :: 0 <= v < 7 && 0 <= i < |AllPMUs()[v]| && 0 <= c < 8 ==>
                var pmu := AllPMUs()[v][i];
                && |values[v]| == |AllPMUs()[v]| && |values[v][i]| == 8 && pmu.box < |hw.boxes|
                && var stopped := hw.boxes[pmu.box].frozenAt;
                   values[v][i][c] == if c < 4 && c < pmu.numCounters && c < |stopped| then stopped[c] else 0
      ensures |dramClocks| == |imcPMUs| && |hbmClocks| == |edcPMUs|
      ensures forall i :: 0 <= i < |imcPMUs| ==>
                && imcPMUs[i].box < |hw.boxes| && imcPMUs[i].numCounters < |hw.boxes[imcPMUs[i].box].frozenAt|
                && dramClocks[i] == hw.boxes[imcPMUs[i].box].frozenAt[imcPMUs[i].numCounters]
      ensures forall i :: 0 <= i < |edcPMUs| ==>
                && edcPMUs[i].box < |hw.boxes| && edcPMUs[i].numCounters < |hw.boxes[edcPMUs[i].box].frozenAt|
                && hbmClocks[i] == hw.boxes[edcPMUs[i].box].frozenAt[edcPMUs[i].numCounters]
      ensures AllBracketed(hw.family, old(hw.boxes), hw.boxes, AllBoxes(AllPMUs()))
    {
      ghost var start, all := hw.boxes, AllBoxes(AllPMUs());
      VectorInAllBoxes(AllPMUs(), 0);
      VectorInAllBoxes(AllPMUs(), 1);
      hide AllBoxes, BoxesOf, FrozenSet, ReleasedSet, StoppedClocks, StoppedValues, HaveFixed;
      FreezeCounters();
      StillFixed(hw.family, start, hw.boxes, imcPMUs, all);
      StillFixed(hw.family, start, hw.boxes, edcPMUs, all);
      values, dramClocks, hbmClocks := ReadFrozen(hw, AllPMUs(), start);
      ghost var stopped := hw.boxes;
      UnfreezeCounters();
      BracketResult(hw.family, start, stopped, hw.boxes, all);
      SameStoppedValues(values, AllPMUs(), stopped, hw.boxes);
      SameStoppedClocks(dramClocks, imcPMUs, stopped, hw.boxes, all);
      SameStoppedClocks(hbmClocks, edcPMUs, stopped, hw.boxes, all);
    }

    /** Deletes the link boxes without a unit control register, keeping the order of the others. */
    method CleanupQPIHandles()
      modifies this`xpiPMUs
      ensures xpiPMUs == ValidOnes(old(xpiPMUs))
      decreases |xpiPMUs|
    {
      for i := 0 to |xpiPMUs|
        invariant xpiPMUs == old(xpiPMUs)
        invariant forall j :: 0 <= j < i ==> xpiPMUs[j].valid
      {
        if !xpiPMUs[i].valid {
          ValidOnesErase(xpiPMUs, i);
          xpiPMUs := xpiPMUs[..i] + xpiPMUs[i + 1..];
          CleanupQPIHandles();
          return;
        }
      }
      ValidOnesIdentity(xpiPMUs);
    }

    /** Afterwards xpiPMUs are, in their original order, exactly the boxes that answered; all of them
        are programmed and counting, and freezeCounters may be called. */
    method ProgramXPI(events: seq<bv64>)
      requires Ready() && AllFit(xpiPMUs, hw.boxes) && DistinctBoxes(xpiPMUs)
      modifies hw, this`xpiPMUs
      ensures Ready()
      ensures xpiPMUs == Answering(hw.family, old(hw.boxes), old(xpiPMUs),
                                   if hasUPI then 0x3_0000 else 0x1_0000)
      ensures XpiProgrammed(hw.family, old(hw.boxes), hw.boxes, old(xpiPMUs), events,
                            if hasUPI then 0x3_0000 else 0x1_0000)
      ensures forall i :: 0 <= i < |xpiPMUs| ==> !Frozen(hw.family, hw.boxes[xpiPMUs[i].box])
      ensures forall i, c :: 0 <= i < |xpiPMUs| && 0 <= c < |xpiPMUs[i].controlPresent| ==>
                var b := xpiPMUs[i].box;
                && b < |old(hw.boxes)| && |hw.boxes[b].controls| == |xpiPMUs[i].controlPresent|
                && |old(hw.boxes)[b].controls| == |xpiPMUs[i].controlPresent|
                && hw.boxes[b].controls[c] ==
                   match hw.family
                   case SprLike => if c < |events| && xpiPMUs[i].controlPresent[c] then events[c] else 0
                   case Default =>
                     if c < |events| && xpiPMUs[i].controlPresent[c] then 0x40_0000 | events[c]
                     else old(hw.boxes)[b].controls[c]
      ensures hw.liveWrites == old(hw.liveWrites)
    {
      CallersPassGoodExtra();
      hide Answering, XpiProgrammed, ReadsBack, Frozen, ValidOnes, GoodExtra, Freezes;
      ghost var start, pmus := hw.boxes, xpiPMUs;
      xpiPMUs := ProgramXpiVector(hw, xpiPMUs, events, XpiExtra());
      ValidOnesAnswer(hw.family, start, pmus, xpiPMUs, XpiExtra());
      CleanupQPIHandles();
      AnsweringElements(hw.family, start, pmus, XpiExtra());
      XpiResult(hw.family, start, hw.boxes, pmus, events, XpiExtra());
    }
  }
}
