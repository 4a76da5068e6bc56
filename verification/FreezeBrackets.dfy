/** Overlapping freeze-read-unfreeze brackets: when the reads of one bracket still return the counters at
    which that bracket stopped the boxes, although other threads freeze and release the same boxes. */
module FreezeBrackets {
  import opened UncorePmu

  /** One access to a box. `own` marks the freezes of the bracket whose reads are looked at; unfreezes and
      other freezes may be anybody's. */
  datatype Access =
    | FreezeAccess(box: nat, extra: bv32, own: bool)
    | UnfreezeAccess(box: nat, extra: bv32)
    | ReadAccess(box: nat, counter: nat)

  function Accessed(family: Family, boxes: seq<Box>, a: Access): seq<Box> {
    if a.box >= |boxes| then boxes
    else
      match a
      case FreezeAccess(b, extra, _) => boxes[b := Written(family, boxes[b], FreezeValue(family, extra))]
      case UnfreezeAccess(b, extra) => boxes[b := Written(family, boxes[b], UnfreezeValue(family, extra))]
      case ReadAccess(_, _) => boxes
  }

  predicate OwnFreeze(a: Access, b: nat) {
    a.FreezeAccess? && a.own && a.box == b
  }

  /** The last freeze of box b by the bracket before access i, -1 if there is none. */
  function LastFreeze(accesses: seq<Access>, b: nat, i: nat): (j: int)
    requires i <= |accesses|
    ensures -1 <= j < i
    ensures j >= 0 ==> OwnFreeze(accesses[j], b)
    ensures forall k :: j < k < i ==> !OwnFreeze(accesses[k], b)
  {
    if i == 0 then -1
    else if OwnFreeze(accesses[i - 1], b) then i - 1
    else LastFreeze(accesses, b, i - 1)
  }

  /** Accesses of any brackets to these boxes, with values of extra that stop and restart a box. */
  predicate Legal(family: Family, boxes: seq<Box>, accesses: seq<Access>) {
    forall i :: 0 <= i < |accesses| ==>
      accesses[i].box < |boxes| && (!accesses[i].ReadAccess? ==> ExtraOk(family, accesses[i].extra))
  }

  /** Any interleaving in which the bracket freezes a box before it reads it. */
  predicate Proper(family: Family, boxes: seq<Box>, accesses: seq<Access>) {
    && Legal(family, boxes, accesses)
    && forall i :: 0 <= i < |accesses| && accesses[i].ReadAccess? ==>
         && accesses[i].counter < |boxes[accesses[i].box].counters|
         && LastFreeze(accesses, accesses[i].box, i) >= 0
  }

  /** seen[i] are the boxes right before access i; time passes before each access. */
  predicate IsExecution(family: Family, boxes: seq<Box>, accesses: seq<Access>, seen: seq<seq<Box>>) {
    && |seen| == |accesses|
    && (seen != [] ==> Ticked(family, boxes, seen[0]))
    && forall i :: 0 < i < |seen| ==> Ticked(family, Accessed(family, seen[i - 1], accesses[i - 1]), seen[i])
  }

  /** Every read returns the counter at which its bracket stopped the box. */
  predicate Faithful(accesses: seq<Access>, seen: seq<seq<Box>>)
    requires |seen| == |accesses|
  {
    forall i :: 0 <= i < |accesses| && accesses[i].ReadAccess? ==> FaithfulRead(accesses, seen, i)
  }

  /** Read i returns what the counter was when the bracket froze the box. */
  predicate FaithfulRead(accesses: seq<Access>, seen: seq<seq<Box>>, i: nat)
    requires |seen| == |accesses| && i < |accesses| && accesses[i].ReadAccess?
  {
    var b, c, j := accesses[i].box, accesses[i].counter, LastFreeze(accesses, accesses[i].box, i);
    && j >= 0 && b < |seen[j]| && b < |seen[i]| && c < |seen[j][b].counters| && c < |seen[i][b].counters|
    && seen[i][b].counters[c] == seen[j][b].counters[c]
  }

  /** Access u releases the box of read i after the bracket froze it. */
  predicate Disturbs(accesses: seq<Access>, u: nat, i: nat)
    requires i < |accesses|
  {
    && accesses[i].ReadAccess?
    && LastFreeze(accesses, accesses[i].box, i) < u < i
    && accesses[u].UnfreezeAccess? && accesses[u].box == accesses[i].box
  }

  predicate Undisturbed(accesses: seq<Access>) {
    forall u, i :: 0 <= u < i < |accesses| ==> !Disturbs(accesses, u, i)
  }

  lemma TickGrows(family: Family, before: seq<Box>, after: seq<Box>, b: nat)
    requires Ticked(family, before, after) && b < |before|
    ensures |after| == |before| && NoLess(before[b].counters, after[b].counters)
  {
    assert TickedBox(family, before[b], after[b]);
  }

  lemma NoLessTransitive(x: seq<nat>, y: seq<nat>, z: seq<nat>)
    requires NoLess(x, y) && NoLess(y, z)
    ensures NoLess(x, z)
  {
  }

  /** The boxes in all states have the same shape as at the start, and counters only grow. */
  lemma {:induction false} CountersGrow(family: Family, boxes: seq<Box>, accesses: seq<Access>, seen: seq<seq<Box>>,
                                        b: nat, j: nat, i: nat)
    requires Legal(family, boxes, accesses) && IsExecution(family, boxes, accesses, seen) && b < |boxes|
    requires j <= i < |seen|
    ensures |seen[j]| == |seen[i]| == |boxes| && |seen[j][b].counters| == |boxes[b].counters|
    ensures NoLess(seen[j][b].counters, seen[i][b].counters)
    ensures j < i ==> NoLess(Accessed(family, seen[j], accesses[j])[b].counters, seen[i][b].counters)
    decreases i, j
  {
    hide Accessed, Ticked, LastFreeze, ExtraOk;
    if i == 0 {
      TickGrows(family, boxes, seen[0], b);
      Unchanged(seen[0][b].counters);
    } else if j == i {
      CountersGrow(family, boxes, accesses, seen, b, i - 1, i - 1);
      AccessKeeps(family, seen[i - 1], accesses[i - 1], b);
      TickGrows(family, Accessed(family, seen[i - 1], accesses[i - 1]), seen[i], b);
      Unchanged(seen[i][b].counters);
    } else {
      CountersGrow(family, boxes, accesses, seen, b, j, i - 1);
      AccessKeeps(family, seen[j], accesses[j], b);
      AccessKeeps(family, seen[i - 1], accesses[i - 1], b);
      TickGrows(family, Accessed(family, seen[i - 1], accesses[i - 1]), seen[i], b);
      NoLessTransitive(seen[j][b].counters, seen[i - 1][b].counters, seen[i][b].counters);
    }
  }

  lemma Unchanged(x: seq<nat>)
    ensures NoLess(x, x)
  {
  }

  /** An access resets nothing. */
  lemma AccessKeeps(family: Family, boxes: seq<Box>, a: Access, b: nat)
    requires b < |boxes| && a.box < |boxes| && (!a.ReadAccess? ==> ExtraOk(family, a.extra))
    ensures |Accessed(family, boxes, a)| == |boxes|
    ensures Accessed(family, boxes, a)[b].counters == boxes[b].counters
    ensures Frozen(family, Accessed(family, boxes, a)[b]) ==
            if a.box == b && a.FreezeAccess? then true
            else if a.box == b && a.UnfreezeAccess? then false
            else Frozen(family, boxes[b])
  {
    if !a.ReadAccess? {
      ControlValues(family, a.extra);
    }
  }

  /** Once frozen by access j, a box keeps its counters until the first release. */
  lemma {:induction false} StaysStopped(family: Family, boxes: seq<Box>, accesses: seq<Access>, seen: seq<seq<Box>>,
                                        b: nat, j: nat, i: nat)
    requires Legal(family, boxes, accesses) && IsExecution(family, boxes, accesses, seen) && b < |boxes|
    requires j < i < |seen| && b < |seen[j]| && b < |Accessed(family, seen[j], accesses[j])|
    requires Frozen(family, Accessed(family, seen[j], accesses[j])[b])
    requires forall u :: j < u < i ==> !(accesses[u].UnfreezeAccess? && accesses[u].box == b)
    ensures |seen[j]| == |seen[i]| == |boxes| && Frozen(family, seen[i][b])
    ensures seen[i][b].counters == Accessed(family, seen[j], accesses[j])[b].counters
    decreases i
  {
    hide LastFreeze, ExtraOk, Accessed, Freezes;
    CountersGrow(family, boxes, accesses, seen, b, j, i - 1);
    AccessKeeps(family, seen[i - 1], accesses[i - 1], b);
    assert Ticked(family, Accessed(family, seen[i - 1], accesses[i - 1]), seen[i]);
    if j < i - 1 {
      StaysStopped(family, boxes, accesses, seen, b, j, i - 1);
    }
  }

  function Raised(counters: seq<nat>): seq<nat> {
    seq(|counters|, i requires 0 <= i < |counters| => counters[i] + 1)
  }

  /** A running box that counts one event of each kind. */
  function Bumped(family: Family, box: Box): Box {
    if Frozen(family, box) then box else box.(counters := Raised(box.counters))
  }

  lemma BumpedIsTicked(family: Family, box: Box)
    ensures TickedBox(family, box, Bumped(family, box))
  {
  }

  function AllBumped(family: Family, boxes: seq<Box>): seq<Box> {
    seq(|boxes|, b requires 0 <= b < |boxes| => Bumped(family, boxes[b]))
  }

  lemma AllBumpedIsTicked(family: Family, boxes: seq<Box>)
    ensures Ticked(family, boxes, AllBumped(family, boxes))
  {
    forall b | 0 <= b < |boxes| ensures TickedBox(family, boxes[b], AllBumped(family, boxes)[b]) {
      BumpedIsTicked(family, boxes[b]);
    }
  }

  /** The execution in which every running box counts an event of each kind before each access. */
  function Busy(family: Family, boxes: seq<Box>, accesses: seq<Access>, n: nat): (seen: seq<seq<Box>>)
    requires n <= |accesses|
    ensures |seen| == n
    ensures forall i :: 0 < i < n ==> seen[i] == AllBumped(family, Accessed(family, seen[i - 1], accesses[i - 1]))
    ensures n > 0 ==> seen[0] == AllBumped(family, boxes)
  {
    if n == 0 then []
    else
      var before := Busy(family, boxes, accesses, n - 1);
      before + [AllBumped(family, if n == 1 then boxes else Accessed(family, before[n - 2], accesses[n - 2]))]
  }

  lemma BusyIsExecution(family: Family, boxes: seq<Box>, accesses: seq<Access>)
    ensures IsExecution(family, boxes, accesses, Busy(family, boxes, accesses, |accesses|))
  {
    var seen := Busy(family, boxes, accesses, |accesses|);
    AllBumpedIsTicked(family, boxes);
    forall i | 0 < i < |seen| ensures Ticked(family, Accessed(family, seen[i - 1], accesses[i - 1]), seen[i]) {
      AllBumpedIsTicked(family, Accessed(family, seen[i - 1], accesses[i - 1]));
    }
  }

  /** In the busy execution a box's counters have moved on after its release. */
  lemma ReleaseMovesOn(family: Family, boxes: seq<Box>, accesses: seq<Access>, b: nat, u: nat, i: nat)
    requires Legal(family, boxes, accesses) && u < i < |accesses| && b < |boxes|
    requires accesses[u].UnfreezeAccess? && accesses[u].box == b
    ensures var seen := Busy(family, boxes, accesses, |accesses|);
            && |seen[u]| == |seen[i]| == |boxes|
            && NoLess(Raised(seen[u][b].counters), seen[i][b].counters)
  {
    var seen := Busy(family, boxes, accesses, |accesses|);
    BusyIsExecution(family, boxes, accesses);
    CountersGrow(family, boxes, accesses, seen, b, u, u);
    CountersGrow(family, boxes, accesses, seen, b, u + 1, i);
    AccessKeeps(family, seen[u], accesses[u], b);
    assert seen[u + 1][b] == Bumped(family, Accessed(family, seen[u], accesses[u])[b]);
  }

  /** A release between the freeze and the read lets the counter move on. */
  lemma DisturbedReadTears(family: Family, boxes: seq<Box>, accesses: seq<Access>, u: nat, i: nat)
    requires Proper(family, boxes, accesses) && u < i < |accesses| && Disturbs(accesses, u, i)
    ensures !FaithfulRead(accesses, Busy(family, boxes, accesses, |accesses|), i)
  {
    var seen := Busy(family, boxes, accesses, |accesses|);
    var b, c := accesses[i].box, accesses[i].counter;
    var j := LastFreeze(accesses, b, i);
    BusyIsExecution(family, boxes, accesses);
    ReleaseMovesOn(family, boxes, accesses, b, u, i);
    CountersGrow(family, boxes, accesses, seen, b, j, u);
    AccessKeeps(family, seen[j], accesses[j], b);
    assert seen[i][b].counters[c] >= seen[u][b].counters[c] + 1;
  }

  /** For any number of brackets on any boxes, interleaved in any way: every read of a bracket returns, in
      every execution, the counter at which that bracket stopped the box, if and only if nobody releases the
      box between that freeze and the read. */
  lemma ReadsAreFaithful(family: Family, boxes: seq<Box>, accesses: seq<Access>)
    requires Proper(family, boxes, accesses)
    ensures (forall seen :: IsExecution(family, boxes, accesses, seen) ==> Faithful(accesses, seen))
            <==> Undisturbed(accesses)
  {
    if Undisturbed(accesses) {
      forall seen | IsExecution(family, boxes, accesses, seen) ensures Faithful(accesses, seen) {
        forall i | 0 <= i < |accesses| && accesses[i].ReadAccess? ensures FaithfulRead(accesses, seen, i) {
          UndisturbedRead(family, boxes, accesses, seen, i);
        }
      }
    } else {
      var u, i :| 0 <= u < i < |accesses| && Disturbs(accesses, u, i);
      var seen := Busy(family, boxes, accesses, |accesses|);
      BusyIsExecution(family, boxes, accesses);
      DisturbedReadTears(family, boxes, accesses, u, i);
      assert !Faithful(accesses, seen);
    }
  }

  lemma UndisturbedRead(family: Family, boxes: seq<Box>, accesses: seq<Access>, seen: seq<seq<Box>>, i: nat)
    requires Proper(family, boxes, accesses) && IsExecution(family, boxes, accesses, seen)
    requires i < |accesses| && accesses[i].ReadAccess? && Undisturbed(accesses)
    ensures FaithfulRead(accesses, seen, i)
  {
    var b := accesses[i].box;
    var j := LastFreeze(accesses, b, i);
    forall u | j < u < i ensures !(accesses[u].UnfreezeAccess? && accesses[u].box == b) {
      assert !Disturbs(accesses, u, i);
    }
    CountersGrow(family, boxes, accesses, seen, b, j, i);
    AccessKeeps(family, seen[j], accesses[j], b);
    StaysStopped(family, boxes, accesses, seen, b, j, i);
  }

  /** The boxes after all accesses, with time passing once more. */
  predicate IsLast(family: Family, boxes: seq<Box>, accesses: seq<Access>, seen: seq<seq<Box>>, last: seq<Box>)
    requires |seen| == |accesses|
  {
    var n := |accesses|;
    Ticked(family, if n == 0 then boxes else Accessed(family, seen[n - 1], accesses[n - 1]), last)
  }

  /** In every execution the box ends up with the counters it started with. */
  ghost predicate KeepsCounters(family: Family, boxes: seq<Box>, accesses: seq<Access>, b: nat)
    requires b < |boxes|
  {
    forall seen: seq<seq<Box>>, last: seq<Box> ::
      IsExecution(family, boxes, accesses, seen) && IsLast(family, boxes, accesses, seen, last) ==>
      b < |last| && last[b].counters == boxes[b].counters
  }

  predicate Releases(accesses: seq<Access>, b: nat) {
    exists u :: 0 <= u < |accesses| && accesses[u].UnfreezeAccess? && accesses[u].box == b
  }

  lemma FrozenUntilLast(family: Family, boxes: seq<Box>, accesses: seq<Access>, seen: seq<seq<Box>>, last: seq<Box>,
                        b: nat)
    requires Legal(family, boxes, accesses) && b < |boxes| && Frozen(family, boxes[b]) && !Releases(accesses, b)
    requires IsExecution(family, boxes, accesses, seen) && IsLast(family, boxes, accesses, seen, last)
    ensures b < |last| && last[b].counters == boxes[b].counters
  {
    var n := |accesses|;
    if n > 0 {
      hide LastFreeze, ExtraOk, Accessed, Freezes;
      assert TickedBox(family, boxes[b], seen[0][b]);
      CountersGrow(family, boxes, accesses, seen, b, 0, n - 1);
      AccessKeeps(family, seen[0], accesses[0], b);
      AccessKeeps(family, seen[n - 1], accesses[n - 1], b);
      if n > 1 {
        StaysStopped(family, boxes, accesses, seen, b, 0, n - 1);
      }
    }
  }

  lemma ReleasedByLast(family: Family, boxes: seq<Box>, accesses: seq<Access>, b: nat) returns (last: seq<Box>)
    requires Legal(family, boxes, accesses) && b < |boxes| && boxes[b].counters != [] && Releases(accesses, b)
    ensures IsLast(family, boxes, accesses, Busy(family, boxes, accesses, |accesses|), last)
    ensures b < |last| && last[b].counters != boxes[b].counters
  {
    hide Accessed, Busy, LastFreeze, ExtraOk, Frozen, Ticked;
    var n := |accesses|;
    var seen := Busy(family, boxes, accesses, n);
    var u :| 0 <= u < n && accesses[u].UnfreezeAccess? && accesses[u].box == b;
    BusyIsExecution(family, boxes, accesses);
    var before := Accessed(family, seen[n - 1], accesses[n - 1]);
    last := AllBumped(family, before);
    AllBumpedIsTicked(family, before);
    CountersGrow(family, boxes, accesses, seen, b, 0, u);
    CountersGrow(family, boxes, accesses, seen, b, u, n - 1);
    TickGrows(family, boxes, seen[0], b);
    AccessKeeps(family, seen[n - 1], accesses[n - 1], b);
    assert last[b] == Bumped(family, before[b]);
    if u < n - 1 {
      ReleaseMovesOn(family, boxes, accesses, b, u, n - 1);
    }
    assert last[b].counters[0] > boxes[b].counters[0];
  }

  /** Whatever is done to a frozen box and to others, its counters stay the same in every execution if and
      only if nobody releases it. */
  lemma OthersKeepCounters(family: Family, boxes: seq<Box>, accesses: seq<Access>, b: nat)
    requires Legal(family, boxes, accesses) && b < |boxes|
    requires Frozen(family, boxes[b]) && boxes[b].counters != []
    ensures KeepsCounters(family, boxes, accesses, b) <==> !Releases(accesses, b)
  {
    if Releases(accesses, b) {
      var seen := Busy(family, boxes, accesses, |accesses|);
      BusyIsExecution(family, boxes, accesses);
      var last := ReleasedByLast(family, boxes, accesses, b);
    } else {
      forall seen: seq<seq<Box>>, last: seq<Box>
        | IsExecution(family, boxes, accesses, seen) && IsLast(family, boxes, accesses, seen, last)
        ensures b < |last| && last[b].counters == boxes[b].counters
      {
        FrozenUntilLast(family, boxes, accesses, seen, last, b);
      }
    }
  }

  /** The smallest overlap that tears: a box frozen by two brackets and released by the first one may
      change its counters before the second one has read them. */
  lemma OverlapTears(family: Family, extra: bv32, box: Box) returns (first: Box, second: Box, released: Box, later: Box)
    requires ExtraOk(family, extra) && !Frozen(family, box) && box.counters != []
    ensures first == Written(family, box, FreezeValue(family, extra))
    ensures second == Written(family, first, FreezeValue(family, extra))
    ensures released == Written(family, second, UnfreezeValue(family, extra))
    ensures TickedBox(family, released, later) && later.counters != second.frozenAt
  {
    ControlValues(family, extra);
    first := Written(family, box, FreezeValue(family, extra));
    second := Written(family, first, FreezeValue(family, extra));
    released := Written(family, second, UnfreezeValue(family, extra));
    later := released.(counters := released.counters[0 := released.counters[0] + 1]);
    assert later.counters[0] != second.frozenAt[0];
  }
}
