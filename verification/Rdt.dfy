/** RMID assignment: initRDT, initQOSevent and cleanupRDT on the two MSRs of every core. */
module Rdt {

  /** IA32_PQR_ASSOC and IA32_QM_EVTSEL of one core. */
  datatype CoreMsrs = CoreMsrs(pqrAssoc: bv64, qmEvtsel: bv64)

  /** The two 32-bit halves of a register. */
  function HighHalf(x: bv64): bv64 {
    x >> 32
  }

  function LowHalf(x: bv64): bv64 {
    x & 0xffff_ffff
  }

  lemma Halves(x: bv64)
    ensures HighHalf(x) < 0x1_0000_0000 && LowHalf(x) < 0x1_0000_0000
    ensures x == (HighHalf(x) << 32) | LowHalf(x)
  {
  }

  function Wide(rmid: bv10): bv64 {
    rmid as bv64
  }

  /** The resource monitoring id in IA32_QM_EVTSEL. */
  function EvtselRmid(qmEvtsel: bv64): bv10 {
    (HighHalf(qmEvtsel) & 0x3ff) as bv10
  }

  function LowTenBits(counter: bv32): bv10 {
    (counter & 0x3ff) as bv10
  }

  function Decremented(counter: bv32): bv32 {
    counter - 1
  }

  /** The 32-bit rmid[socket] after k decrements. */
  function CounterAfter(maxRMID: bv32, k: nat): bv32 {
    if k == 0 then Decremented(maxRMID) else Decremented(CounterAfter(maxRMID, k - 1))
  }

  /** The RMID that the k-th online core of a socket gets: ten bits of the counter. */
  function RmidBits(maxRMID: bv32, k: nat): bv10 {
    LowTenBits(CounterAfter(maxRMID, k))
  }

  function Value(rmid: bv10): nat {
    rmid as int
  }

  /** The number of RMIDs, a 32-bit unsigned. */
  function Limit(maxRMID: bv32): nat {
    maxRMID as int
  }

  function RmidOfRank(maxRMID: bv32, k: nat): nat {
    Value(RmidBits(maxRMID, k))
  }

  lemma Widened(c: bv11)
    ensures (c as bv32) as int == c as int
  {
  }

  lemma Narrowed(b: bv32, c: bv11)
    requires 1 <= b <= 1024 && c == b as bv11
    ensures b == c as bv32 && b - 1 == (c - 1) as bv32 && c != 0 && c - 1 <= 1023
    ensures LowTenBits(b - 1) == (c - 1) as bv10
  {
  }

  lemma Predecessor11(c: bv11)
    requires c != 0
    ensures (c - 1) as int == c as int - 1
  {
  }

  lemma Predecessor10(c: bv10)
    requires Value(c) != 0
    ensures Value(c - 1) == Value(c) - 1
  {
    assert c != 0;
  }

  lemma Narrow11(c: bv11)
    requires c <= 1023
    ensures Value(c as bv10) == c as int
  {
  }

  /** How many cores of a socket get a usable RMID: the ten low bits of maxRMID - 1. */
  function UsableRmids(maxRMID: bv32): nat {
    Value(LowTenBits(maxRMID - 1))
  }

  /** Up to 1024 RMIDs, all but RMID 0 are usable. */
  lemma AllButZeroUsable(maxRMID: bv32)
    requires 1 <= maxRMID <= 1024
    ensures 1 <= Limit(maxRMID) && UsableRmids(maxRMID) == Limit(maxRMID) - 1
  {
    var c := maxRMID as bv11;
    Narrowed(maxRMID, c);
    Widened(c);
    Predecessor11(c);
    Narrow11(c - 1);
  }

  lemma UsableBelowLimit(maxRMID: bv32)
    requires maxRMID >= 1
    ensures UsableRmids(maxRMID) < Limit(maxRMID)
  {
    if maxRMID <= 1024 {
      AllButZeroUsable(maxRMID);
    } else {
      hide LowTenBits;
      MoreThan1024(maxRMID);
      LessThan1024(LowTenBits(maxRMID - 1));
    }
  }

  lemma MoreThan1024(maxRMID: bv32)
    requires maxRMID > 1024
    ensures Limit(maxRMID) > 1024
  {
  }

  lemma LessThan1024(c: bv10)
    ensures Value(c) < 1024
  {
  }

  /** Counting down: the k-th online core of a socket gets the k-th RMID below the number of usable ones,
      down to 0. */
  lemma {:induction false} RmidValue(maxRMID: bv32, k: nat)
    requires k <= UsableRmids(maxRMID)
    ensures RmidOfRank(maxRMID, k) == UsableRmids(maxRMID) - k
  {
    hide Value, LowTenBits;
    if k > 0 {
      RmidValue(maxRMID, k - 1);
      Predecessor10(RmidBits(maxRMID, k - 1));
      NextBits(CounterAfter(maxRMID, k - 1));
    }
  }

  lemma NextBits(counter: bv32)
    ensures LowTenBits(counter - 1) == LowTenBits(counter) - 1
  {
  }

  /** The class of service, which the RMID assignment must not touch. */
  function UpperHalf(pqrAssoc: bv64): bv64 {
    pqrAssoc & 0xffff_ffff_0000_0000
  }

  function InitialPqr(before: bv64, rmid: bv10): bv64 {
    UpperHalf(before) | (rmid as bv64)
  }

  function InitialEvtsel(rmid: bv10): bv64 {
    (rmid as bv64) << 32
  }

  function AssignRmid(before: CoreMsrs, rmid: bv10): CoreMsrs {
    CoreMsrs(InitialPqr(before.pqrAssoc, rmid), InitialEvtsel(rmid))
  }

  function WithEvent(qmEvtsel: bv64, event: bv64): bv64 {
    (qmEvtsel & 0xffff_ffff_ffff_fff0) | (event & 0xff)
  }

  function EventId(qmEvtsel: bv64): bv64 {
    qmEvtsel & 0xff
  }

  /** Both registers of a core hold the RMID, IA32_PQR_ASSOC in its lower and IA32_QM_EVTSEL in its upper
      half. */
  predicate HoldsRmid(m: CoreMsrs, rmid: bv10) {
    LowHalf(m.pqrAssoc) == Wide(rmid) && HighHalf(m.qmEvtsel) == Wide(rmid)
  }

  /** The upper half of IA32_PQR_ASSOC, the class of service, is the same. */
  predicate SameClass(m: CoreMsrs, before: CoreMsrs) {
    HighHalf(m.pqrAssoc) == HighHalf(before.pqrAssoc)
  }

  lemma PqrHalves(before: bv64, rmid: bv10)
    ensures LowHalf(InitialPqr(before, rmid)) == Wide(rmid)
    ensures HighHalf(InitialPqr(before, rmid)) == HighHalf(before)
  {
  }

  lemma EvtselHalves(rmid: bv10)
    ensures HighHalf(InitialEvtsel(rmid)) == Wide(rmid) && EventId(InitialEvtsel(rmid)) == 0
  {
  }

  lemma EvtselRmidOf(qmEvtsel: bv64, rmid: bv10)
    requires HighHalf(qmEvtsel) == Wide(rmid)
    ensures EvtselRmid(qmEvtsel) == rmid
  {
  }

  /** The first assignment makes both registers agree and keeps the class of service. */
  lemma AssignedHolds(before: CoreMsrs, rmid: bv10)
    ensures HoldsRmid(AssignRmid(before, rmid), rmid) && SameClass(AssignRmid(before, rmid), before)
    ensures EventId(AssignRmid(before, rmid).qmEvtsel) == 0
  {
    hide InitialPqr, InitialEvtsel, EventId, HighHalf, LowHalf, Wide;
    PqrHalves(before.pqrAssoc, rmid);
    EvtselHalves(rmid);
  }

  /** cleanupRDT's two writes: RMID 0, no event, same class of service. */
  predicate Released(m: CoreMsrs, before: CoreMsrs) {
    LowHalf(m.pqrAssoc) == 0 && m.qmEvtsel == 0 && SameClass(m, before)
  }

  lemma LowHalfCleared(pqrAssoc: bv64)
    ensures LowHalf(UpperHalf(pqrAssoc)) == 0 && HighHalf(UpperHalf(pqrAssoc)) == HighHalf(pqrAssoc)
  {
  }

  lemma CleanupReleases(m: CoreMsrs)
    ensures Released(CoreMsrs(UpperHalf(m.pqrAssoc), 0), m)
  {
    hide UpperHalf, HighHalf, LowHalf;
    LowHalfCleared(m.pqrAssoc);
  }

  lemma WithEventKeepsUpperHalf(qmEvtsel: bv64, event: bv64)
    ensures HighHalf(WithEvent(qmEvtsel, event)) == HighHalf(qmEvtsel)
  {
  }

  lemma WithEventKeepsRmid(qmEvtsel: bv64, event: bv64)
    ensures EvtselRmid(WithEvent(qmEvtsel, event)) == EvtselRmid(qmEvtsel)
  {
    hide WithEvent, HighHalf;
    WithEventKeepsUpperHalf(qmEvtsel, event);
  }

  /** The first request after the assignment: the lower half of IA32_QM_EVTSEL is its event id, the upper half
      still the RMID. */
  lemma FirstEvent(rmid: bv10, event: bv64)
    ensures LowHalf(WithEvent(InitialEvtsel(rmid), event)) == event & 0xff
    ensures HighHalf(WithEvent(InitialEvtsel(rmid), event)) == Wide(rmid)
  {
  }

  function EventByte(event: bv64): bv64 {
    event & 0xff
  }

  /** The bits of an event that initQOSevent never clears again. */
  function HighBits(event: bv64): bv64 {
    event & 0xf0
  }

  function Joined(a: bv64, b: bv64): bv64 {
    a | b
  }

  predicate Contains(a: bv64, b: bv64) {
    a & b == b
  }

  function StickyBits(events: seq<bv64>): bv64 {
    if events == [] then 0 else Joined(StickyBits(events[..|events| - 1]), HighBits(events[|events| - 1]))
  }

  /** The event id after initRDT and these requests: the last request, and bits 4 to 7 of all earlier
      ones. */
  function EventAfter(events: seq<bv64>): bv64 {
    if events == [] then 0
    else Joined(StickyBits(events[..|events| - 1]), EventByte(events[|events| - 1]))
  }

  lemma OneEvent(qmEvtsel: bv64, event: bv64)
    ensures EventId(WithEvent(qmEvtsel, event)) == Joined(HighBits(EventId(qmEvtsel)), EventByte(event))
  {
  }

  lemma HighBitsJoined(a: bv64, event: bv64)
    requires HighBits(a) == a
    ensures HighBits(Joined(a, EventByte(event))) == Joined(a, HighBits(event))
    ensures HighBits(Joined(a, HighBits(event))) == Joined(a, HighBits(event))
  {
  }

  lemma {:induction false} StickyBitsHigh(events: seq<bv64>)
    ensures HighBits(StickyBits(events)) == StickyBits(events) == HighBits(EventAfter(events))
  {
    if events == [] {
      assert HighBits(0) == 0;
    } else {
      hide HighBits, EventByte, Joined;
      StickyBitsHigh(events[..|events| - 1]);
      HighBitsJoined(StickyBits(events[..|events| - 1]), events[|events| - 1]);
    }
  }

  /** One more request on a register that went through `events`. */
  lemma NextEvent(qmEvtsel: bv64, events: seq<bv64>, event: bv64)
    requires EventId(qmEvtsel) == EventAfter(events)
    ensures EventId(WithEvent(qmEvtsel, event)) == EventAfter(events + [event])
  {
    hide EventId, WithEvent, HighBits, EventByte, Joined;
    OneEvent(qmEvtsel, event);
    StickyBitsHigh(events);
    assert (events + [event])[..|events|] == events;
  }

  /** initQOSevent clears four bits of the event id but sets eight: after any requests, the last one is
      the selected event if and only if it contains bits 4 to 7 of all earlier ones. */
  lemma LastEventSelected(events: seq<bv64>)
    requires events != []
    ensures var last := events[|events| - 1];
            EventAfter(events) == EventByte(last) <==> Contains(last, StickyBits(events[..|events| - 1]))
  {
    hide StickyBits;
    var n := |events| - 1;
    StickyBitsHigh(events[..n]);
    ContainsHighBits(events[n], StickyBits(events[..n]));
  }

  lemma ContainsHighBits(event: bv64, sticky: bv64)
    requires HighBits(sticky) == sticky
    ensures Joined(sticky, EventByte(event)) == EventByte(event) <==> Contains(event, sticky)
  {
  }

  lemma {:induction false} SmallEventsStickNowhere(events: seq<bv64>)
    requires forall i :: 0 <= i < |events| ==> events[i] < 16
    ensures StickyBits(events) == 0
  {
    if events != [] {
      SmallEventsStickNowhere(events[..|events| - 1]);
      SmallEvent(events[|events| - 1]);
    }
  }

  lemma SmallEvent(event: bv64)
    requires event < 16
    ensures HighBits(event) == 0 && EventByte(event) == event
  {
  }

  /** Requests below 16 are always selected; the code makes only the requests 1, 2 and 3. */
  lemma SmallEventsSelected(events: seq<bv64>)
    requires events != [] && forall i :: 0 <= i < |events| ==> events[i] < 16
    ensures EventAfter(events) == events[|events| - 1]
  {
    hide StickyBits;
    SmallEventsStickNowhere(events[..|events| - 1]);
    SmallEvent(events[|events| - 1]);
  }

  /** An input on which the selection fails: event 0x10, then event 0x1, selects 0x11. */
  lemma EventsMixed()
    ensures EventAfter([0x10, 0x1]) == 0x11
  {
    var first: seq<bv64> := [0x10];
    var none: seq<bv64> := [];
    assert [0x10, 0x1][..1] == first && first[..0] == none;
    assert StickyBits(none) == 0;
    assert StickyBits(first) == 0x10;
  }

  /** The requests for core c, in order. */
  function EventsOf(events: seq<(nat, bv64)>, c: nat): seq<bv64> {
    if events == [] then []
    else
      var last := events[|events| - 1];
      EventsOf(events[..|events| - 1], c) + if last.0 == c then [last.1] else []
  }

  /** The number of online cores of socket s among the first n cores. */
  function OnlineOn(online: seq<bool>, socketId: seq<int>, s: int, n: nat): nat
    requires n <= |online| == |socketId|
  {
    if n == 0 then 0
    else OnlineOn(online, socketId, s, n - 1) + if online[n - 1] && socketId[n - 1] == s then 1 else 0
  }

  /** rmid[s] has been decremented once for each online core of s among the first n. */
  predicate CountersAt(rmid: seq<bv32>, online: seq<bool>, socketId: seq<int>, maxRMID: bv32, n: nat)
    requires n <= |online| == |socketId|
  {
    forall s :: 0 <= s < |rmid| ==> rmid[s] == CounterAfter(maxRMID, OnlineOn(online, socketId, s, n))
  }

  lemma CountersStart(rmid: seq<bv32>, online: seq<bool>, socketId: seq<int>, maxRMID: bv32)
    requires |online| == |socketId|
    requires forall s :: 0 <= s < |rmid| ==> rmid[s] == Decremented(maxRMID)
    ensures CountersAt(rmid, online, socketId, maxRMID, 0)
  {
    hide Decremented;
  }

  lemma CountersStep(rmid: seq<bv32>, online: seq<bool>, socketId: seq<int>, maxRMID: bv32, n: nat)
    requires n < |online| == |socketId| && CountersAt(rmid, online, socketId, maxRMID, n)
    requires online[n] ==> 0 <= socketId[n] < |rmid|
    ensures var next := if online[n] then rmid[socketId[n] := Decremented(rmid[socketId[n]])] else rmid;
            CountersAt(next, online, socketId, maxRMID, n + 1)
    ensures online[n] ==>
              LowTenBits(rmid[socketId[n]]) == RmidBits(maxRMID, OnlineOn(online, socketId, socketId[n], n))
  {
    hide Decremented, LowTenBits;
  }

  lemma {:induction false} RanksIncrease(online: seq<bool>, socketId: seq<int>, s: int, c: nat, n: nat)
    requires c < n <= |online| == |socketId| && online[c] && socketId[c] == s
    ensures OnlineOn(online, socketId, s, c) < OnlineOn(online, socketId, s, n)
  {
    if c < n - 1 {
      RanksIncrease(online, socketId, s, c, n - 1);
    }
  }

  /** Every rank below the number of online cores of a socket belongs to one of them. */
  lemma {:induction false} CoreOfRank(online: seq<bool>, socketId: seq<int>, s: int, k: nat, n: nat) returns (c: nat)
    requires n <= |online| == |socketId| && k < OnlineOn(online, socketId, s, n)
    ensures c < n && online[c] && socketId[c] == s && OnlineOn(online, socketId, s, c) == k
  {
    if OnlineOn(online, socketId, s, n - 1) == k {
      c := n - 1;
    } else {
      c := CoreOfRank(online, socketId, s, k, n - 1);
    }
  }

  /** The RMIDs of n consecutive ranks are pairwise different and lie in 1..maxRMID-1. */
  predicate GoodRmids(maxRMID: bv32, n: nat) {
    && (forall i, j :: 0 <= i < j < n ==> RmidOfRank(maxRMID, i) != RmidOfRank(maxRMID, j))
    && (forall i :: 0 <= i < n ==> 1 <= RmidOfRank(maxRMID, i) < Limit(maxRMID))
  }

  /** The assignment is good for a socket if and only if it has no more online cores than there are usable
      RMIDs: the next core would get RMID 0. */
  lemma RmidsGood(maxRMID: bv32, n: nat)
    requires maxRMID >= 1
    ensures GoodRmids(maxRMID, n) <==> n <= UsableRmids(maxRMID)
  {
    hide RmidOfRank, Value, Limit, UsableRmids;
    UsableBelowLimit(maxRMID);
    forall i: nat | i <= UsableRmids(maxRMID) ensures RmidOfRank(maxRMID, i) == UsableRmids(maxRMID) - i {
      RmidValue(maxRMID, i);
    }
    if n > UsableRmids(maxRMID) {
      assert RmidOfRank(maxRMID, UsableRmids(maxRMID)) == 0;
    }
  }

  /** No socket has more than n online cores. */
  ghost predicate AtMostCores(online: seq<bool>, socketId: seq<int>, n: nat)
    requires |online| == |socketId|
  {
    forall s :: OnlineOn(online, socketId, s, |online|) <= n
  }

  function RmidOfCore(online: seq<bool>, socketId: seq<int>, maxRMID: bv32, c: nat): nat
    requires c < |online| == |socketId|
  {
    RmidOfRank(maxRMID, OnlineOn(online, socketId, socketId[c], c))
  }

  lemma RanksGood(online: seq<bool>, socketId: seq<int>, maxRMID: bv32)
    requires |online| == |socketId| && maxRMID >= 1
    ensures if AtMostCores(online, socketId, UsableRmids(maxRMID)) then
              && (forall c, d :: 0 <= c < d < |online| && online[c] && online[d] && socketId[c] == socketId[d] ==>
                    RmidOfCore(online, socketId, maxRMID, c) != RmidOfCore(online, socketId, maxRMID, d))
              && (forall c :: 0 <= c < |online| && online[c] ==>
                    1 <= RmidOfCore(online, socketId, maxRMID, c) < Limit(maxRMID))
            else
              exists c :: 0 <= c < |online| && online[c] && RmidOfCore(online, socketId, maxRMID, c) == 0
  {
    hide RmidOfRank, Value, Limit, UsableRmids;
    if AtMostCores(online, socketId, UsableRmids(maxRMID)) {
      forall c | 0 <= c < |online| && online[c] ensures 1 <= RmidOfCore(online, socketId, maxRMID, c) < Limit(maxRMID) {
        RmidsGood(maxRMID, OnlineOn(online, socketId, socketId[c], |online|));
        RanksIncrease(online, socketId, socketId[c], c, |online|);
      }
      forall c, d | 0 <= c < d < |online| && online[c] && online[d] && socketId[c] == socketId[d]
        ensures RmidOfCore(online, socketId, maxRMID, c) != RmidOfCore(online, socketId, maxRMID, d)
      {
        RmidsGood(maxRMID, OnlineOn(online, socketId, socketId[c], |online|));
        RanksIncrease(online, socketId, socketId[c], c, d);
        RanksIncrease(online, socketId, socketId[c], d, |online|);
      }
    } else {
      var s :| OnlineOn(online, socketId, s, |online|) > UsableRmids(maxRMID);
      var c := CoreOfRank(online, socketId, s, UsableRmids(maxRMID), |online|);
      RmidValue(maxRMID, UsableRmids(maxRMID));
      assert RmidOfCore(online, socketId, maxRMID, c) == 0;
    }
  }

  /** The MSRs of all cores. */
  class Monitoring {
    const online: seq<bool>
    const socketId: seq<int>
    var msr: seq<CoreMsrs>

    constructor (online: seq<bool>, socketId: seq<int>, msr: seq<CoreMsrs>)
      requires |online| == |socketId| == |msr|
      ensures Valid() && this.online == online && this.socketId == socketId && this.msr == msr
    {
      this.online, this.socketId, this.msr := online, socketId, msr;
    }

    predicate Valid()
      reads this
    {
      |online| == |socketId| == |msr|
    }

    /** The place of core c among the online cores of its socket. */
    function Rank(c: nat): nat
      requires c < |online| == |socketId|
    {
      OnlineOn(online, socketId, socketId[c], c)
    }

    /** Both registers of every online core hold the core's RMID. */
    predicate Assigned(maxRMID: bv32)
      requires Valid()
      reads this
    {
      forall c :: 0 <= c < |online| && online[c] ==> HoldsRmid(msr[c], RmidBits(maxRMID, Rank(c)))
    }

    method InitRDT(maxRMID: bv32, numSockets: nat)
      requires Valid()
      requires forall c :: 0 <= c < |online| && online[c] ==> 0 <= socketId[c] < numSockets
      modifies this
      ensures Valid() && Assigned(maxRMID)
      ensures forall c :: 0 <= c < |online| ==>
                if online[c] then
                  && HighHalf(msr[c].pqrAssoc) == HighHalf(old(msr)[c].pqrAssoc)
                  && LowHalf(msr[c].pqrAssoc) == HighHalf(msr[c].qmEvtsel) == Wide(RmidBits(maxRMID, Rank(c)))
                  && EventId(msr[c].qmEvtsel) == 0
                else msr[c] == old(msr)[c]
    {
      hide AssignRmid, LowTenBits, EventId, Decremented, RmidBits, CountersAt, OnlineOn, HighHalf, LowHalf, Wide;
      var rmid := seq(numSockets, i => Decremented(maxRMID));
      CountersStart(rmid, online, socketId, maxRMID);
      for core := 0 to |online|
        invariant Valid() && |rmid| == numSockets
        invariant CountersAt(rmid, online, socketId, maxRMID, core)
        invariant forall c :: 0 <= c < core && online[c] ==> HoldsRmid(msr[c], RmidBits(maxRMID, Rank(c)))
        invariant forall c :: 0 <= c < core && online[c] ==>
                    SameClass(msr[c], old(msr)[c]) && EventId(msr[c].qmEvtsel) == 0
        invariant forall c :: 0 <= c < |online| && (c >= core || !online[c]) ==> msr[c] == old(msr)[c]
      {
        CountersStep(rmid, online, socketId, maxRMID, core);
        if online[core] {
          var s := socketId[core];
          var bits := LowTenBits(rmid[s]);
          AssignedHolds(msr[core], bits);
          msr := msr[core := AssignRmid(msr[core], bits)];
          rmid := rmid[s := Decremented(rmid[s])];
        }
      }
    }

    method InitQOSevent(event: bv64, core: nat, ghost maxRMID: bv32)
      requires Valid() && core < |online| && Assigned(maxRMID)
      modifies this
      ensures Valid() && Assigned(maxRMID)
      ensures msr == if online[core]
                     then old(msr)[core := old(msr)[core].(qmEvtsel := WithEvent(old(msr)[core].qmEvtsel, event))]
                     else old(msr)
    {
      hide WithEvent, RmidBits, LowHalf, Wide;
      if !online[core] {
        return;
      }
      WithEventKeepsUpperHalf(msr[core].qmEvtsel, event);
      msr := msr[core := msr[core].(qmEvtsel := WithEvent(msr[core].qmEvtsel, event))];
    }

    method CleanupRDT()
      requires Valid()
      modifies this
      ensures Valid()
      ensures forall c :: 0 <= c < |online| ==>
                if online[c] then
                  && HighHalf(msr[c].pqrAssoc) == HighHalf(old(msr)[c].pqrAssoc)
                  && LowHalf(msr[c].pqrAssoc) == 0 && msr[c].qmEvtsel == 0
                else msr[c] == old(msr)[c]
    {
      hide UpperHalf, HighHalf, LowHalf;
      for core := 0 to |online|
        invariant Valid()
        invariant forall c :: 0 <= c < core && online[c] ==> Released(msr[c], old(msr)[c])
        invariant forall c :: 0 <= c < |online| && (c >= core || !online[c]) ==> msr[c] == old(msr)[c]
      {
        if online[core] {
          CleanupReleases(msr[core]);
          msr := msr[core := CoreMsrs(UpperHalf(msr[core].pqrAssoc), 0)];
        }
      }
    }

    /** Every online core has selected what its requests so far amount to. */
    predicate Selected(events: seq<(nat, bv64)>)
      requires Valid()
      reads this
    {
      forall c :: 0 <= c < |online| && online[c] ==> EventId(msr[c].qmEvtsel) == EventAfter(EventsOf(events, c))
    }

    /** After initRDT, any number of initQOSevent calls on any cores leaves every core with its RMID, and
        each core with the event that its own requests amount to. */
    method Monitor(maxRMID: bv32, numSockets: nat, events: seq<(nat, bv64)>)
      requires Valid()
      requires forall c :: 0 <= c < |online| && online[c] ==> 0 <= socketId[c] < numSockets
      requires forall i :: 0 <= i < |events| ==> events[i].0 < |online|
      modifies this
      ensures Valid() && Assigned(maxRMID) && Selected(events)
    {
      hide EventId, WithEvent, HoldsRmid;
      InitRDT(maxRMID, numSockets);
      for i := 0 to |events|
        invariant Valid() && Assigned(maxRMID) && Selected(events[..i])
      {
        var core, event := events[i].0, events[i].1;
        ghost var before := msr;
        InitQOSevent(event, core, maxRMID);
        assert events[..i + 1][..i] == events[..i];
        forall c | 0 <= c < |online| && online[c]
          ensures EventId(msr[c].qmEvtsel) == EventAfter(EventsOf(events[..i + 1], c))
        {
          assert EventId(before[c].qmEvtsel) == EventAfter(EventsOf(events[..i], c));
          if c == core {
            NextEvent(before[c].qmEvtsel, EventsOf(events[..i], c), event);
          } else {
            assert EventsOf(events[..i + 1], c) == EventsOf(events[..i], c);
          }
        }
      }
      assert events[..|events|] == events;
    }

    /** No two online cores of one socket are monitored under the same RMID. */
    predicate Distinct()
      requires Valid()
      reads this
    {
      forall c, d :: 0 <= c < d < |online| && online[c] && online[d] && socketId[c] == socketId[d] ==>
        EvtselRmid(msr[c].qmEvtsel) != EvtselRmid(msr[d].qmEvtsel)
    }

    predicate InRange(maxRMID: bv32)
      requires Valid()
      reads this
    {
      forall c :: 0 <= c < |online| && online[c] ==> 1 <= Value(EvtselRmid(msr[c].qmEvtsel)) < Limit(maxRMID)
    }

    /** While the RMIDs are assigned, two online cores of one socket never share one, and all lie in
        1..maxRMID-1, if and only if no socket has more online cores than there are usable RMIDs. */
    lemma DistinctRmids(maxRMID: bv32)
      requires Valid() && Assigned(maxRMID) && maxRMID >= 1
      ensures AtMostCores(online, socketId, UsableRmids(maxRMID)) <==> Distinct() && InRange(maxRMID)
    {
      hide HighHalf, LowHalf, Wide, EvtselRmid, RmidBits, Value, Limit, AtMostCores, UsableRmids;
      forall c | 0 <= c < |online| && online[c]
        ensures Value(EvtselRmid(msr[c].qmEvtsel)) == RmidOfCore(online, socketId, maxRMID, c)
      {
        assert HoldsRmid(msr[c], RmidBits(maxRMID, Rank(c)));
        EvtselRmidOf(msr[c].qmEvtsel, RmidBits(maxRMID, Rank(c)));
      }
      hide RmidOfCore;
      RanksGood(online, socketId, maxRMID);
      if AtMostCores(online, socketId, UsableRmids(maxRMID)) {
        forall c, d | 0 <= c < d < |online| && online[c] && online[d] && socketId[c] == socketId[d]
          ensures EvtselRmid(msr[c].qmEvtsel) != EvtselRmid(msr[d].qmEvtsel)
        {
          assert RmidOfCore(online, socketId, maxRMID, c) != RmidOfCore(online, socketId, maxRMID, d);
        }
      } else {
        var c :| 0 <= c < |online| && online[c] && RmidOfCore(online, socketId, maxRMID, c) == 0;
        assert Value(EvtselRmid(msr[c].qmEvtsel)) == 0;
        assert !InRange(maxRMID);
      }
    }
  }
}
