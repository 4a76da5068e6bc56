/** PCM::getAllCounterStates (parallel) against PCM::getSystemCounterState (sequential). */
module CounterCollection {
  import opened Sums
  import opened CounterStates
  import opened CoreTaskQueue

  const MAX_C_STATE := 10

  /** The machine with its register values fixed. core[c] and uncore[s] are the additions that
      one read of the core, or of the socket's memory controllers and energy counters, executes;
      which of them occur depends on the platform. packageCStates[c] are the package C-state
      residencies that core c reads. */
  datatype Machine = Machine(
    numSockets: nat,
    socketRefCore: seq<int>,
    online: seq<bool>,
    socketId: seq<int>,
    core: seq<seq<Reading>>,
    packageCStates: seq<seq<int>>,
    uncore: seq<seq<Reading>>)
  {
    function NumCores(): nat {
      |online|
    }

    predicate Valid() {
      && |socketId| == |core| == |packageCStates| == NumCores()
      && |socketRefCore| == |uncore| == numSockets
      && (numSockets > 0 ==> NumCores() > 0)
      && (forall s :: 0 <= s < numSockets ==> socketRefCore[s] < NumCores())
      && (forall c :: 0 <= c < NumCores() && online[c] ==> 0 <= socketId[c] < numSockets)
      && (forall c :: 0 <= c < NumCores() ==> |packageCStates[c]| == MAX_C_STATE + 1)
      && (forall c, i :: 0 <= c < NumCores() && 0 <= i < |core[c]| ==> IsBasic(core[c][i].field))
      && (forall s, i :: 0 <= s < numSockets && 0 <= i < |uncore[s]| ==>
            !IsBasic(uncore[s][i].field) && !uncore[s][i].field.PackageCState?)
    }

    /** The socket of each core, -1 for an offline one. */
    function Ids(): seq<int>
      requires |socketId| == NumCores()
    {
      seq(NumCores(), c requires 0 <= c < NumCores() => if online[c] then socketId[c] else -1)
    }

    predicate IsSocketOnline(s: nat)
      requires s < |socketRefCore|
    {
      socketRefCore[s] != -1
    }
  }

  // ---------------------------------------------------------------------------------------
  // The tasks

  /** readAndAggregatePackageCStateResidencies adds only the non-zero residencies. */
  function CStateReadings(values: seq<int>, i: nat): seq<Reading>
    requires i <= |values|
    decreases |values| - i
  {
    if i == |values| then []
    else (if values[i] != 0 then [Reading(PackageCState(i), values[i])] else []) + CStateReadings(values, i + 1)
  }

  function PlainAdds(slot: Owner, rs: seq<Reading>): seq<Op> {
    seq(|rs|, i requires 0 <= i < |rs| => PlainAdd(At(slot, rs[i].field), rs[i].value))
  }

  function AtomicAdds(slot: Owner, rs: seq<Reading>): seq<Op> {
    seq(|rs|, i requires 0 <= i < |rs| => AtomicAdd(At(slot, rs[i].field), rs[i].value))
  }

  function At(slot: Owner, f: Field): Loc {
    match slot
    case OfCore(c) => CoreLoc(c, f)
    case OfSocket(s) => SocketLoc(s, f)
  }

  function CoreTask(m: Machine, uncore: bool, c: nat): Task
    requires m.Valid() && c < m.NumCores() && m.online[c]
  {
    Task(c, OfCore(c),
         PlainAdds(OfCore(c), m.core[c])
         + if uncore then AtomicAdds(OfSocket(m.socketId[c]), CStateReadings(m.packageCStates[c], 0)) else [])
  }

  function SocketTask(m: Machine, s: nat): Task
    requires m.Valid() && s < m.numSockets
  {
    Task(if m.socketRefCore[s] < 0 then 0 else m.socketRefCore[s], OfSocket(s), PlainAdds(OfSocket(s), m.uncore[s]))
  }

  function CoreTasks(m: Machine, uncore: bool, n: nat): Plan
    requires m.Valid() && n <= m.NumCores()
  {
    if n == 0 then [] else
      CoreTasks(m, uncore, n - 1) + if m.online[n - 1] then [CoreTask(m, uncore, n - 1)] else []
  }

  function SocketTasks(m: Machine, n: nat): Plan
    requires m.Valid() && n <= m.numSockets
  {
    if n == 0 then [] else SocketTasks(m, n - 1) + [SocketTask(m, n - 1)]
  }

  /** The tasks in the order in which getAllCounterStates pushes them; the second argument is
      readAndAggregateSocketUncoreCounters. */
  function CollectionPlan(m: Machine, uncore: bool): Plan
    requires m.Valid()
  {
    CoreTasks(m, uncore, m.NumCores()) + if uncore then SocketTasks(m, m.numSockets) else []
  }

  lemma {:induction false} CStateReadingsFields(values: seq<int>, i: nat)
    requires i <= |values|
    ensures forall j :: 0 <= j < |CStateReadings(values, i)| ==> CStateReadings(values, i)[j].field.PackageCState?
    decreases |values| - i
  {
    if i < |values| {
      CStateReadingsFields(values, i + 1);
    }
  }

  predicate WellOwned(task: Task) {
    forall p :: 0 <= p < |task.ops| ==>
      if task.ops[p].AtomicAdd? then Shared(task.ops[p].loc)
      else !Shared(task.ops[p].loc) && OwnerOf(task.ops[p].loc) == task.owner
  }

  lemma {:induction false} CoreTasksShape(m: Machine, uncore: bool, n: nat)
    requires m.Valid() && n <= m.NumCores()
    ensures forall k :: 0 <= k < |CoreTasks(m, uncore, n)| ==>
              var task := CoreTasks(m, uncore, n)[k];
              task.core < n && task.owner == OfCore(task.core) && WellOwned(task)
    ensures forall j, k :: 0 <= j < k < |CoreTasks(m, uncore, n)| ==>
              CoreTasks(m, uncore, n)[j].core < CoreTasks(m, uncore, n)[k].core
  {
    if n > 0 {
      CoreTasksShape(m, uncore, n - 1);
      CStateReadingsFields(m.packageCStates[n - 1], 0);
    }
  }

  lemma {:induction false} SocketTasksShape(m: Machine, n: nat)
    requires m.Valid() && n <= m.numSockets
    ensures |SocketTasks(m, n)| == n
    ensures forall k :: 0 <= k < n ==> SocketTasks(m, n)[k] == SocketTask(m, k) && WellOwned(SocketTask(m, k))
  {
    if n > 0 {
      SocketTasksShape(m, n - 1);
    }
  }

  /** The plan is race-free: each plain accumulator has one writing task; only the package
      C-state residencies are added to from several tasks, and only atomically. */
  lemma CollectionExclusive(m: Machine, uncore: bool)
    requires m.Valid()
    ensures Exclusive(CollectionPlan(m, uncore))
    ensures forall k :: 0 <= k < |CollectionPlan(m, uncore)| ==> CollectionPlan(m, uncore)[k].core < m.NumCores()
  {
    var plan := CollectionPlan(m, uncore);
    CoreTasksShape(m, uncore, m.NumCores());
    SocketTasksShape(m, m.numSockets);
    forall k | 0 <= k < |plan| ensures WellOwned(plan[k]) {}
  }

  // ---------------------------------------------------------------------------------------
  // What the tasks add up to

  lemma {:induction false} ContributionAppend(a: seq<Op>, b: seq<Op>, l: Loc)
    ensures Contribution(a + b, l) == Contribution(a, l) + Contribution(b, l)
  {
    if a == [] {
      assert a + b == b;
    } else {
      assert (a + b)[1..] == a[1..] + b;
      ContributionAppend(a[1..], b, l);
    }
  }

  lemma {:induction false} AddsContribution(slot: Owner, rs: seq<Reading>, l: Loc)
    ensures Contribution(PlainAdds(slot, rs), l) == (if OwnerOf(l) == slot then Amount(rs, l.field) else 0)
    ensures Contribution(AtomicAdds(slot, rs), l) == (if OwnerOf(l) == slot then Amount(rs, l.field) else 0)
  {
    if rs != [] {
      assert PlainAdds(slot, rs)[1..] == PlainAdds(slot, rs[1..]);
      assert AtomicAdds(slot, rs)[1..] == AtomicAdds(slot, rs[1..]);
      AddsContribution(slot, rs[1..], l);
    }
  }

  lemma {:induction false} TotalAppend(a: Plan, b: Plan, l: Loc, n: nat)
    requires n <= |b|
    ensures Total(a + b, l, |a| + n) == Total(a, l, |a|) + Total(b, l, n)
  {
    if n == 0 {
      TotalPrefix(a, b, l, |a|);
    } else {
      TotalAppend(a, b, l, n - 1);
    }
  }

  lemma {:induction false} TotalPrefix(a: Plan, b: Plan, l: Loc, n: nat)
    requires n <= |a|
    ensures Total(a + b, l, n) == Total(a, l, n)
  {
    if n > 0 {
      TotalPrefix(a, b, l, n - 1);
    }
  }

  /** What core c's read adds to field f of its own state. */
  function CoreAmount(m: Machine, f: Field, c: nat): int
    requires m.Valid() && c < m.NumCores()
  {
    if m.online[c] then Amount(m.core[c], f) else 0
  }

  /** What core c's read adds to field f of its socket's uncore state. */
  function PackageAmount(m: Machine, f: Field, c: nat): int
    requires m.Valid() && c < m.NumCores()
  {
    if m.online[c] then Amount(CStateReadings(m.packageCStates[c], 0), f) else 0
  }

  /** Sum over the first n cores of core amounts that belong to one core. */
  lemma {:induction false} CoreTotal(m: Machine, uncore: bool, c: nat, f: Field, n: nat)
    requires m.Valid() && n <= m.NumCores() && c < m.NumCores()
    ensures var plan := CoreTasks(m, uncore, n);
            Total(plan, CoreLoc(c, f), |plan|) == if c < n then CoreAmount(m, f, c) else 0
  {
    hide CoreTask, Contribution, Amount;
    if n > 0 {
      CoreTotal(m, uncore, c, f, n - 1);
      if m.online[n - 1] {
        LastTask(CoreTasks(m, uncore, n - 1), CoreTask(m, uncore, n - 1), CoreLoc(c, f));
        CoreTaskContribution(m, uncore, n - 1, CoreLoc(c, f));
      } else {
        assert CoreTasks(m, uncore, n) == CoreTasks(m, uncore, n - 1);
      }
    }
  }

  lemma LastTask(plan: Plan, task: Task, l: Loc)
    ensures Total(plan + [task], l, |plan| + 1) == Total(plan, l, |plan|) + Contribution(task.ops, l)
  {
    TotalPrefix(plan, [task], l, |plan|);
  }

  lemma CoreTaskContribution(m: Machine, uncore: bool, c: nat, l: Loc)
    requires m.Valid() && c < m.NumCores() && m.online[c]
    ensures Contribution(CoreTask(m, uncore, c).ops, l) ==
            match l
            case CoreLoc(d, f) => if d == c then CoreAmount(m, f, c) else 0
            case SocketLoc(s, f) => if uncore && m.socketId[c] == s then PackageAmount(m, f, c) else 0
  {
    var states := CStateReadings(m.packageCStates[c], 0);
    AddsContribution(OfCore(c), m.core[c], l);
    AddsContribution(OfSocket(m.socketId[c]), states, l);
    ContributionAppend(PlainAdds(OfCore(c), m.core[c]), AtomicAdds(OfSocket(m.socketId[c]), states), l);
    assert uncore || CoreTask(m, uncore, c).ops == PlainAdds(OfCore(c), m.core[c]);
  }

  /** The amounts of the first n cores, with those outside socket s taken as 0; ids[c] is the
      socket of core c. */
  function OnSocket(ids: seq<int>, amounts: seq<int>, s: int, n: nat): seq<int>
    requires n <= |amounts| && n <= |ids|
  {
    seq(n, c requires 0 <= c < n => if ids[c] == s then amounts[c] else 0)
  }

  lemma OnSocketPrefix(ids: seq<int>, amounts: seq<int>, s: int, n: nat)
    requires 0 < n <= |amounts| && n <= |ids|
    ensures Sum(OnSocket(ids, amounts, s, n)) ==
            Sum(OnSocket(ids, amounts, s, n - 1)) + if ids[n - 1] == s then amounts[n - 1] else 0
  {
    assert OnSocket(ids, amounts, s, n)[..n - 1] == OnSocket(ids, amounts, s, n - 1);
  }

  function CoreAmounts(m: Machine, f: Field): seq<int>
    requires m.Valid()
  {
    seq(m.NumCores(), c requires 0 <= c < m.NumCores() => CoreAmount(m, f, c))
  }

  function PackageAmounts(m: Machine, f: Field): seq<int>
    requires m.Valid()
  {
    seq(m.NumCores(), c requires 0 <= c < m.NumCores() => PackageAmount(m, f, c))
  }

  function UncoreAmounts(m: Machine, f: Field): seq<int>
    requires m.Valid()
  {
    seq(m.numSockets, s requires 0 <= s < m.numSockets => Amount(m.uncore[s], f))
  }

  lemma {:induction false} PackageTotal(m: Machine, uncore: bool, s: nat, f: Field, n: nat)
    requires m.Valid() && n <= m.NumCores()
    ensures var plan := CoreTasks(m, uncore, n);
            Total(plan, SocketLoc(s, f), |plan|) ==
            if uncore then Sum(OnSocket(m.Ids(), PackageAmounts(m, f), s, n)) else 0
  {
    hide CoreTask, Contribution, PackageAmount, Sum;
    if n == 0 {
      SumZero(OnSocket(m.Ids(), PackageAmounts(m, f), s, 0));
    } else {
      PackageTotal(m, uncore, s, f, n - 1);
      OnSocketPrefix(m.Ids(), PackageAmounts(m, f), s, n);
      if m.online[n - 1] {
        LastTask(CoreTasks(m, uncore, n - 1), CoreTask(m, uncore, n - 1), SocketLoc(s, f));
        CoreTaskContribution(m, uncore, n - 1, SocketLoc(s, f));
      } else {
        assert CoreTasks(m, uncore, n) == CoreTasks(m, uncore, n - 1);
      }
    }
  }

  lemma {:induction false} SocketTotal(m: Machine, l: Loc, n: nat)
    requires m.Valid() && n <= m.numSockets
    ensures |SocketTasks(m, n)| == n
    ensures Total(SocketTasks(m, n), l, n) ==
            if l.SocketLoc? && l.socket < n then Amount(m.uncore[l.socket], l.field) else 0
  {
    if n > 0 {
      SocketTotal(m, l, n - 1);
      LastTask(SocketTasks(m, n - 1), SocketTask(m, n - 1), l);
      AddsContribution(OfSocket(n - 1), m.uncore[n - 1], l);
    }
  }

  /** The whole plan's effect on every accumulator. */
  lemma CollectionTotal(m: Machine, uncore: bool, l: Loc)
    requires m.Valid()
    requires match l case CoreLoc(c, _) => c < m.NumCores() case SocketLoc(s, _) => s < m.numSockets
    ensures var plan := CollectionPlan(m, uncore);
            Total(plan, l, |plan|) ==
            match l
            case CoreLoc(c, f) => CoreAmount(m, f, c)
            case SocketLoc(s, f) =>
              if uncore then Sum(OnSocket(m.Ids(), PackageAmounts(m, f), s, m.NumCores())) + Amount(m.uncore[s], f)
              else 0
  {
    var cores := CoreTasks(m, uncore, m.NumCores());
    match l {
      case CoreLoc(c, f) => CoreTotal(m, uncore, c, f, m.NumCores());
      case SocketLoc(s, f) => PackageTotal(m, uncore, s, f, m.NumCores());
    }
    if uncore {
      SocketTotal(m, l, m.numSockets);
      TotalAppend(cores, SocketTasks(m, m.numSockets), l, m.numSockets);
    } else {
      assert CollectionPlan(m, uncore) == cores;
    }
  }

  // ---------------------------------------------------------------------------------------
  // Folding cores into sockets and sockets into the system

  /** The counter state that a slot of memory holds. */
  function SlotState(mem: Memory, slot: Owner): (c: Counters)
    ensures forall f :: Get(c, f) == Load(mem, At(slot, f))
  {
    map l | l in mem && OwnerOf(l) == slot :: l.field := mem[l]
  }

  /** socketStates as the socket tasks leave them. */
  function SocketSlots(m: Machine, mem: Memory): (r: seq<Counters>)
    ensures |r| == m.numSockets
  {
    seq(m.numSockets, s requires 0 <= s < m.numSockets => SlotState(mem, OfSocket(s)))
  }

  /** socketStates after the first n cores have been added. */
  function SocketsAfter(m: Machine, mem: Memory, n: nat): (r: seq<Counters>)
    requires m.Valid() && n <= m.NumCores()
    ensures |r| == m.numSockets
  {
    if n == 0 then SocketSlots(m, mem)
    else
      var before := SocketsAfter(m, mem, n - 1);
      if m.online[n - 1] then
        before[m.socketId[n - 1] := PlusBasic(before[m.socketId[n - 1]], SlotState(mem, OfCore(n - 1)))]
      else before
  }

  /** systemState after the first n sockets have been added. */
  function SystemAfter(sockets: seq<Counters>, n: nat): Counters
    requires n <= |sockets|
  {
    if n == 0 then map[]
    else PlusUncore(PlusBasic(SystemAfter(sockets, n - 1), sockets[n - 1]), sockets[n - 1])
  }

  /** The state getAllCounterStates returns when its tasks have left the memory mem. */
  function SystemState(m: Machine, mem: Memory): Counters
    requires m.Valid()
  {
    SystemAfter(SocketsAfter(m, mem, m.NumCores()), m.numSockets)
  }

  /** The aggregation loops of getAllCounterStates. */
  method AggregateStates(m: Machine, mem: Memory) returns (systemState: Counters, socketStates: seq<Counters>)
    requires m.Valid()
    ensures socketStates == SocketsAfter(m, mem, m.NumCores())
    ensures systemState == SystemState(m, mem)
    ensures forall f :: Get(systemState, f) ==
              if f.UncNMMiss? || f.UncNMHit? || f.PPEnergyStatus? then 0
              else Wrap(Sum(SocketFields(socketStates, f, m.numSockets)))
  {
    hide SocketSlots, SlotState, PlusBasic, PlusUncore;
    socketStates := SocketSlots(m, mem);
    for core := 0 to m.NumCores()
      invariant socketStates == SocketsAfter(m, mem, core)
    {
      if m.online[core] {
        var s := m.socketId[core];
        socketStates := socketStates[s := PlusBasic(socketStates[s], SlotState(mem, OfCore(core)))];
      }
    }
    systemState := map[];
    for s := 0 to m.numSockets
      invariant systemState == SystemAfter(socketStates, s)
    {
      systemState := PlusUncore(PlusBasic(systemState, socketStates[s]), socketStates[s]);
    }
    forall f
      ensures Get(systemState, f) ==
              if f.UncNMMiss? || f.UncNMHit? || f.PPEnergyStatus? then 0
              else Wrap(Sum(SocketFields(socketStates, f, m.numSockets)))
    {
      SystemAfterGet(socketStates, f, m.numSockets);
    }
  }

  /** Field f of the first n sockets. */
  function SocketFields(sockets: seq<Counters>, f: Field, n: nat): seq<int>
    requires n <= |sockets|
  {
    seq(n, s requires 0 <= s < n => Get(sockets[s], f))
  }

  lemma {:induction false} SystemAfterGet(sockets: seq<Counters>, f: Field, n: nat)
    requires n <= |sockets|
    ensures Get(SystemAfter(sockets, n), f) ==
            if f.UncNMMiss? || f.UncNMHit? || f.PPEnergyStatus? then 0
            else Wrap(Sum(SocketFields(sockets, f, n)))
  {
    WrapZero();
    hide Wrap, PlusBasic, PlusUncore;
    if n > 0 {
      SystemAfterGet(sockets, f, n - 1);
      var xs := SocketFields(sockets, f, n);
      assert xs[..n - 1] == SocketFields(sockets, f, n - 1);
      WrapAdd(Sum(xs[..n - 1]), 0);
      PlusBothGet(SystemAfter(sockets, n - 1), sockets[n - 1], f);
      WrapAdd(Sum(xs[..n - 1]), xs[n - 1]);
    }
  }

  /** Values that a 64-bit accumulator can hold. */
  ghost predicate Wrapped(mem: Memory) {
    forall l :: Load(mem, l) == Wrap(Load(mem, l))
  }

  lemma SocketsAfterStep(m: Machine, mem: Memory, f: Field, s: nat, n: nat)
    requires m.Valid() && 0 < n <= m.NumCores() && s < m.numSockets
    requires Get(SocketsAfter(m, mem, n - 1)[s], f) == Wrap(Get(SocketsAfter(m, mem, n - 1)[s], f))
    ensures Get(SocketsAfter(m, mem, n)[s], f) ==
            var before := Get(SocketsAfter(m, mem, n - 1)[s], f);
            if m.Ids()[n - 1] == s && IsBasic(f) then Wrap(before + Load(mem, CoreLoc(n - 1, f))) else before
  {
    hide Wrap, PlusBasic;
    PlusBasicGet(SocketsAfter(m, mem, n - 1)[s], SlotState(mem, OfCore(n - 1)), f);
  }

  lemma {:induction false} SocketsAfterGet(m: Machine, mem: Memory, f: Field, s: nat, n: nat, amounts: seq<int>)
    requires m.Valid() && n <= m.NumCores() && s < m.numSockets && Wrapped(mem)
    requires |amounts| == m.NumCores()
    requires forall c :: 0 <= c < n ==> amounts[c] == Load(mem, CoreLoc(c, f))
    ensures Get(SocketsAfter(m, mem, n)[s], f) ==
            Wrap(Load(mem, SocketLoc(s, f)) + if IsBasic(f) then Sum(OnSocket(m.Ids(), amounts, s, n)) else 0)
  {
    hide Wrap, PlusBasic;
    if n == 0 {
      assert Load(mem, SocketLoc(s, f)) == Wrap(Load(mem, SocketLoc(s, f)));
    } else {
      hide SocketsAfter, OnSocket, Sum, IsBasic;
      SocketsAfterGet(m, mem, f, s, n - 1, amounts);
      OnSocketPrefix(m.Ids(), amounts, s, n);
      var before := Load(mem, SocketLoc(s, f)) +
        if IsBasic(f) then Sum(OnSocket(m.Ids(), amounts, s, n - 1)) else 0;
      WrapAdd(before, 0);
      SocketsAfterStep(m, mem, f, s, n);
      WrapAdd(before, amounts[n - 1]);
    }
  }

  /** The sum of the first n cores' amounts, per socket. */
  function PerSocket(ids: seq<int>, amounts: seq<int>, numSockets: nat, n: nat): seq<int>
    requires n <= |amounts| && n <= |ids|
  {
    seq(numSockets, s requires 0 <= s < numSockets => Sum(OnSocket(ids, amounts, s, n)))
  }

  /** Regrouping: adding up per socket and then over the sockets is adding up over the cores. */
  lemma {:induction false} Regroup(ids: seq<int>, amounts: seq<int>, numSockets: nat, n: nat)
    requires n <= |ids| == |amounts|
    requires forall c :: 0 <= c < |ids| ==> 0 <= ids[c] < numSockets || (ids[c] == -1 && amounts[c] == 0)
    ensures Sum(PerSocket(ids, amounts, numSockets, n)) == Sum(amounts[..n])
  {
    var sums := PerSocket(ids, amounts, numSockets, n);
    if n == 0 {
      SumZero(sums);
    } else {
      Regroup(ids, amounts, numSockets, n - 1);
      var before := PerSocket(ids, amounts, numSockets, n - 1);
      var last := seq(numSockets, s requires 0 <= s < numSockets => if ids[n - 1] == s then amounts[n - 1] else 0);
      forall s | 0 <= s < numSockets ensures sums[s] == before[s] + last[s] {
        OnSocketPrefix(ids, amounts, s, n);
      }
      SumPointwise(before, last, sums);
      if ids[n - 1] == -1 {
        SumZero(last);
      } else {
        SumSingle(last, ids[n - 1]);
      }
      assert amounts[..n][..n - 1] == amounts[..n - 1];
    }
  }

  /** Wrapping every term first does not change a sum modulo 2^64. */
  lemma {:induction false} WrapSum(a: seq<int>, b: seq<int>)
    requires |a| == |b| && forall i :: 0 <= i < |a| ==> a[i] == Wrap(b[i])
    ensures Wrap(Sum(a)) == Wrap(Sum(b))
  {
    hide Wrap;
    if a != [] {
      var n := |a| - 1;
      WrapSum(a[..n], b[..n]);
      WrapAdd(Sum(a[..n]), a[n]);
      WrapAdd(Sum(a[..n]), b[n]);
      WrapAdd(Sum(b[..n]), b[n]);
    }
  }

  // ---------------------------------------------------------------------------------------
  // The parallel result

  /** What all tasks together add to field f of the state of socket s. */
  function SocketAmount(m: Machine, uncore: bool, f: Field, s: nat): int
    requires m.Valid() && s < m.numSockets
  {
    if IsBasic(f) then Sum(OnSocket(m.Ids(), CoreAmounts(m, f), s, m.NumCores()))
    else if uncore then
      Sum(OnSocket(m.Ids(), PackageAmounts(m, f), s, m.NumCores())) + Amount(m.uncore[s], f)
    else 0
  }

  /** What all tasks together add to field f of the system. */
  function ParallelAmount(m: Machine, uncore: bool, f: Field): int
    requires m.Valid()
  {
    if IsBasic(f) then Sum(CoreAmounts(m, f))
    else if uncore then Sum(PackageAmounts(m, f)) + Sum(UncoreAmounts(m, f))
    else 0
  }

  function SocketAmounts(m: Machine, uncore: bool, f: Field): seq<int>
    requires m.Valid()
  {
    seq(m.numSockets, s requires 0 <= s < m.numSockets => SocketAmount(m, uncore, f, s))
  }

  lemma GroupedAmounts(m: Machine, amounts: seq<int>)
    requires m.Valid() && |amounts| == m.NumCores()
    requires forall c :: 0 <= c < m.NumCores() && !m.online[c] ==> amounts[c] == 0
    ensures Sum(PerSocket(m.Ids(), amounts, m.numSockets, m.NumCores())) == Sum(amounts)
  {
    assert amounts[..m.NumCores()] == amounts;
    Regroup(m.Ids(), amounts, m.numSockets, m.NumCores());
  }

  lemma SocketAmountsSum(m: Machine, uncore: bool, f: Field)
    requires m.Valid()
    ensures Sum(SocketAmounts(m, uncore, f)) == ParallelAmount(m, uncore, f)
  {
    hide Sum, OnSocket, Amount, IsBasic;
    var S, C := m.numSockets, m.NumCores();
    if IsBasic(f) {
      GroupedAmounts(m, CoreAmounts(m, f));
      assert SocketAmounts(m, uncore, f) == PerSocket(m.Ids(), CoreAmounts(m, f), S, C);
    } else if uncore {
      GroupedAmounts(m, PackageAmounts(m, f));
      SumPointwise(PerSocket(m.Ids(), PackageAmounts(m, f), S, C), UncoreAmounts(m, f), SocketAmounts(m, uncore, f));
    } else {
      SumZero(SocketAmounts(m, uncore, f));
    }
  }

  /** Neither the package C-state reads nor the socket tasks touch a basic field. */
  lemma BasicOnlyFromCores(m: Machine, f: Field, s: nat)
    requires m.Valid() && s < m.numSockets && IsBasic(f)
    ensures Sum(OnSocket(m.Ids(), PackageAmounts(m, f), s, m.NumCores())) == 0
    ensures Amount(m.uncore[s], f) == 0
  {
    AmountOfOtherFields(m.uncore[s], f);
    forall c | 0 <= c < m.NumCores() ensures PackageAmounts(m, f)[c] == 0 {
      CStateReadingsFields(m.packageCStates[c], 0);
      AmountOfOtherFields(CStateReadings(m.packageCStates[c], 0), f);
    }
    SumZero(OnSocket(m.Ids(), PackageAmounts(m, f), s, m.NumCores()));
  }

  lemma WrappedMemory(plan: Plan, t: State)
    requires Exclusive(plan) && Reachable(plan, t)
    ensures Wrapped(t.mem)
  {
    ReachableInv(plan, t);
    hide Wrap;
    forall l ensures Load(t.mem, l) == Wrap(Load(t.mem, l)) {
      assert LocInv(plan, t, l);
    }
  }

  ghost predicate Collected(m: Machine, uncore: bool, t: State)
    requires m.Valid()
  {
    Reachable(CollectionPlan(m, uncore), t) && Finished(CollectionPlan(m, uncore), t)
  }

  lemma SlotResult(m: Machine, uncore: bool, t: State, f: Field, s: nat)
    requires m.Valid() && s < m.numSockets && Collected(m, uncore, t)
    ensures Load(t.mem, SocketLoc(s, f)) == Wrap(if IsBasic(f) then 0 else SocketAmount(m, uncore, f, s))
    ensures forall c :: 0 <= c < m.NumCores() ==> Load(t.mem, CoreLoc(c, f)) == Wrap(CoreAmounts(m, f)[c])
  {
    hide Wrap;
    CollectionExclusive(m, uncore);
    var plan := CollectionPlan(m, uncore);
    FinalMemory(plan, t, SocketLoc(s, f));
    CollectionTotal(m, uncore, SocketLoc(s, f));
    if IsBasic(f) {
      BasicOnlyFromCores(m, f, s);
    }
    forall c | 0 <= c < m.NumCores() ensures Load(t.mem, CoreLoc(c, f)) == Wrap(CoreAmounts(m, f)[c]) {
      FinalMemory(plan, t, CoreLoc(c, f));
      CollectionTotal(m, uncore, CoreLoc(c, f));
    }
  }

  /** Field f of the slots of all cores. */
  function Loaded(mem: Memory, f: Field, n: nat): seq<int> {
    seq(n, c requires 0 <= c < n => Load(mem, CoreLoc(c, f)))
  }

  lemma WrapOnSocket(ids: seq<int>, loaded: seq<int>, amounts: seq<int>, s: int)
    requires |ids| == |loaded| == |amounts|
    requires forall c :: 0 <= c < |ids| ==> loaded[c] == Wrap(amounts[c])
    ensures Wrap(Sum(OnSocket(ids, loaded, s, |ids|))) == Wrap(Sum(OnSocket(ids, amounts, s, |ids|)))
  {
    WrapZero();
    hide Wrap;
    WrapSum(OnSocket(ids, loaded, s, |ids|), OnSocket(ids, amounts, s, |ids|));
  }

  /** The state of a socket does not depend on the interleaving: every field holds the sum of what
      was read for it. */
  lemma SocketResult(m: Machine, uncore: bool, t: State, f: Field, s: nat)
    requires m.Valid() && s < m.numSockets && Collected(m, uncore, t)
    ensures Get(SocketsAfter(m, t.mem, m.NumCores())[s], f) == Wrap(SocketAmount(m, uncore, f, s))
  {
    WrapZero();
    hide Wrap, Sum, OnSocket, SocketsAfter, IsBasic;
    var C := m.NumCores();
    CollectionExclusive(m, uncore);
    WrappedMemory(CollectionPlan(m, uncore), t);
    SlotResult(m, uncore, t, f, s);
    var loaded := Loaded(t.mem, f, C);
    SocketsAfterGet(m, t.mem, f, s, C, loaded);
    if IsBasic(f) {
      WrapOnSocket(m.Ids(), loaded, CoreAmounts(m, f), s);
    } else {
      hide SocketAmount;
      WrapAdd(SocketAmount(m, uncore, f, s), 0);
    }
  }

  /** Whatever the interleaving of workers, main thread and spurious wakeups, getAllCounterStates
      returns, in every field that += adds up, the sum of all readings modulo 2^64, and 0 in the
      fields that += leaves out. */
  lemma ParallelResult(m: Machine, uncore: bool, t: State, f: Field)
    requires m.Valid() && Collected(m, uncore, t)
    ensures Get(SystemState(m, t.mem), f) ==
            if f.UncNMMiss? || f.UncNMHit? || f.PPEnergyStatus? then 0 else Wrap(ParallelAmount(m, uncore, f))
  {
    hide Wrap;
    var S := m.numSockets;
    var sockets := SocketsAfter(m, t.mem, m.NumCores());
    SystemAfterGet(sockets, f, S);
    if !(f.UncNMMiss? || f.UncNMHit? || f.PPEnergyStatus?) {
      var perSocket := SocketFields(sockets, f, S);
      var sums := SocketAmounts(m, uncore, f);
      forall s | 0 <= s < S ensures perSocket[s] == Wrap(sums[s]) {
        SocketResult(m, uncore, t, f, s);
      }
      WrapSum(perSocket, sums);
      SocketAmountsSum(m, uncore, f);
    }
  }

  // ---------------------------------------------------------------------------------------
  // The sequential reference

  /** The readings that the loops of getSystemCounterState add, in program order. */
  function SequentialCoreReadings(m: Machine, n: nat): seq<Reading>
    requires m.Valid() && n <= m.NumCores()
  {
    if n == 0 then [] else
      SequentialCoreReadings(m, n - 1)
      + if m.online[n - 1] then m.core[n - 1] + CStateReadings(m.packageCStates[n - 1], 0) else []
  }

  function SequentialSocketReadings(m: Machine, n: nat): seq<Reading>
    requires m.Valid() && n <= m.numSockets
  {
    if n == 0 then [] else
      SequentialSocketReadings(m, n - 1) + if m.IsSocketOnline(n - 1) then m.uncore[n - 1] else []
  }

  lemma {:induction false} AddReadingsAppend(c: Counters, a: seq<Reading>, b: seq<Reading>)
    ensures AddReadings(c, a + b) == AddReadings(AddReadings(c, a), b)
    decreases a
  {
    if a == [] {
      assert a + b == b;
    } else {
      assert (a + b)[1..] == a[1..] + b;
      AddReadingsAppend(AddReading(c, a[0]), a[1..], b);
    }
  }

  /** The result after the reads of the first c cores and s sockets. */
  function SequentialAfter(m: Machine, c: nat, s: nat): Counters
    requires m.Valid() && c <= m.NumCores() && s <= m.numSockets
  {
    AddReadings(map[], SequentialCoreReadings(m, c) + SequentialSocketReadings(m, s))
  }

  lemma SequentialStart(m: Machine)
    requires m.Valid()
    ensures SequentialAfter(m, 0, 0) == map[]
  {
  }

  lemma SequentialCoreStep(m: Machine, c: nat)
    requires m.Valid() && c < m.NumCores()
    ensures SequentialAfter(m, c + 1, 0) ==
            if m.online[c] then
              AddReadings(AddReadings(SequentialAfter(m, c, 0), m.core[c]), CStateReadings(m.packageCStates[c], 0))
            else SequentialAfter(m, c, 0)
  {
    hide AddReadings, CStateReadings;
    var before := SequentialCoreReadings(m, c);
    var states := CStateReadings(m.packageCStates[c], 0);
    assert before + SequentialSocketReadings(m, 0) == before;
    if m.online[c] {
      AddReadingsAppend(map[], before + m.core[c], states);
      AddReadingsAppend(map[], before, m.core[c]);
      assert SequentialCoreReadings(m, c + 1) + SequentialSocketReadings(m, 0) == before + m.core[c] + states;
    } else {
      assert SequentialCoreReadings(m, c + 1) == before;
    }
  }

  lemma SequentialSocketStep(m: Machine, s: nat)
    requires m.Valid() && s < m.numSockets
    ensures SequentialAfter(m, m.NumCores(), s + 1) ==
            if m.IsSocketOnline(s) then AddReadings(SequentialAfter(m, m.NumCores(), s), m.uncore[s])
            else SequentialAfter(m, m.NumCores(), s)
  {
    hide AddReadings, SequentialCoreReadings;
    var cores, before := SequentialCoreReadings(m, m.NumCores()), SequentialSocketReadings(m, s);
    if m.IsSocketOnline(s) {
      AddReadingsAppend(map[], cores + before, m.uncore[s]);
      assert cores + SequentialSocketReadings(m, s + 1) == (cores + before) + m.uncore[s];
    } else {
      assert SequentialSocketReadings(m, s + 1) == before;
    }
  }

  method GetSystemCounterState(m: Machine) returns (result: Counters)
    requires m.Valid()
    ensures result == SequentialState(m)
  {
    hide AddReadings, CStateReadings, SequentialAfter;
    SequentialStart(m);
    result := map[];
    for core := 0 to m.NumCores()
      invariant result == SequentialAfter(m, core, 0)
    {
      SequentialCoreStep(m, core);
      if m.online[core] {
        result := AddReadings(result, m.core[core]);
        result := AddReadings(result, CStateReadings(m.packageCStates[core], 0));
      }
    }
    for s := 0 to m.numSockets
      invariant result == SequentialAfter(m, m.NumCores(), s)
    {
      SequentialSocketStep(m, s);
      if m.IsSocketOnline(s) {
        result := AddReadings(result, m.uncore[s]);
      }
    }
  }

  /** The state that getSystemCounterState returns. */
  function SequentialState(m: Machine): Counters
    requires m.Valid()
  {
    SequentialAfter(m, m.NumCores(), m.numSockets)
  }

  /** What one field receives from the online sockets. */
  function OnlineUncoreAmounts(m: Machine, f: Field): seq<int>
    requires m.Valid()
  {
    seq(m.numSockets, s requires 0 <= s < m.numSockets => if m.IsSocketOnline(s) then Amount(m.uncore[s], f) else 0)
  }

  lemma {:induction false} SequentialCoreAmount(m: Machine, f: Field, n: nat)
    requires m.Valid() && n <= m.NumCores()
    ensures Amount(SequentialCoreReadings(m, n), f) == Sum(CoreAmounts(m, f)[..n]) + Sum(PackageAmounts(m, f)[..n])
  {
    hide Sum, CStateReadings;
    if n == 0 {
      SumZero(CoreAmounts(m, f)[..0]);
      SumZero(PackageAmounts(m, f)[..0]);
    } else {
      SequentialCoreAmount(m, f, n - 1);
      SumPrefix(CoreAmounts(m, f), n);
      SumPrefix(PackageAmounts(m, f), n);
      var states := CStateReadings(m.packageCStates[n - 1], 0);
      AmountAppend(m.core[n - 1], states, f);
      AmountAppend(SequentialCoreReadings(m, n - 1), if m.online[n - 1] then m.core[n - 1] + states else [], f);
    }
  }

  lemma {:induction false} SequentialSocketAmount(m: Machine, f: Field, n: nat)
    requires m.Valid() && n <= m.numSockets
    ensures Amount(SequentialSocketReadings(m, n), f) == Sum(OnlineUncoreAmounts(m, f)[..n])
  {
    hide Sum;
    if n == 0 {
      SumZero(OnlineUncoreAmounts(m, f)[..0]);
    } else {
      SequentialSocketAmount(m, f, n - 1);
      SumPrefix(OnlineUncoreAmounts(m, f), n);
      AmountAppend(SequentialSocketReadings(m, n - 1), if m.IsSocketOnline(n - 1) then m.uncore[n - 1] else [], f);
    }
  }

  function SequentialAmount(m: Machine, f: Field): int
    requires m.Valid()
  {
    Sum(CoreAmounts(m, f)) + Sum(PackageAmounts(m, f)) + Sum(OnlineUncoreAmounts(m, f))
  }

  lemma SequentialResult(m: Machine, f: Field)
    requires m.Valid()
    ensures Get(SequentialState(m), f) == Wrap(SequentialAmount(m, f))
  {
    WrapZero();
    hide Wrap;
    var cores := SequentialCoreReadings(m, m.NumCores());
    var sockets := SequentialSocketReadings(m, m.numSockets);
    AddReadingsGet(map[], cores + sockets, f);
    AmountAppend(cores, sockets, f);
    SequentialCoreAmount(m, f, m.NumCores());
    SequentialSocketAmount(m, f, m.numSockets);
    assert CoreAmounts(m, f)[..m.NumCores()] == CoreAmounts(m, f);
    assert PackageAmounts(m, f)[..m.NumCores()] == PackageAmounts(m, f);
    assert OnlineUncoreAmounts(m, f)[..m.numSockets] == OnlineUncoreAmounts(m, f);
  }

  /** The readings that the loop of getSocketCounterState adds, in program order. */
  function SocketCoreReadings(m: Machine, s: nat, n: nat): seq<Reading>
    requires m.Valid() && n <= m.NumCores()
  {
    if n == 0 then [] else
      SocketCoreReadings(m, s, n - 1)
      + if m.online[n - 1] && m.socketId[n - 1] == s then m.core[n - 1] + CStateReadings(m.packageCStates[n - 1], 0)
        else []
  }

  /** The state that getSocketCounterState returns. */
  function SequentialSocketState(m: Machine, s: nat): Counters
    requires m.Valid() && s < m.numSockets
  {
    AddReadings(map[], SocketCoreReadings(m, s, m.NumCores()) + m.uncore[s])
  }

  lemma SocketCoreStep(m: Machine, s: nat, c: nat)
    requires m.Valid() && c < m.NumCores()
    ensures AddReadings(map[], SocketCoreReadings(m, s, c + 1)) ==
            if m.online[c] && m.socketId[c] == s then
              AddReadings(AddReadings(AddReadings(map[], SocketCoreReadings(m, s, c)), m.core[c]),
                          CStateReadings(m.packageCStates[c], 0))
            else AddReadings(map[], SocketCoreReadings(m, s, c))
  {
    hide AddReadings, CStateReadings;
    var before, states := SocketCoreReadings(m, s, c), CStateReadings(m.packageCStates[c], 0);
    if m.online[c] && m.socketId[c] == s {
      AddReadingsAppend(map[], before, m.core[c]);
      AddReadingsAppend(map[], before + m.core[c], states);
      assert SocketCoreReadings(m, s, c + 1) == before + m.core[c] + states;
    } else {
      assert SocketCoreReadings(m, s, c + 1) == before;
    }
  }

  method GetSocketCounterState(m: Machine, socket: nat) returns (result: Counters)
    requires m.Valid() && socket < m.numSockets
    ensures result == SequentialSocketState(m, socket)
  {
    assert AddReadings(map[], SocketCoreReadings(m, socket, 0)) == map[];
    hide AddReadings, CStateReadings, SocketCoreReadings;
    result := map[];
    for core := 0 to m.NumCores()
      invariant result == AddReadings(map[], SocketCoreReadings(m, socket, core))
    {
      SocketCoreStep(m, socket, core);
      if m.online[core] && m.socketId[core] == socket {
        result := AddReadings(result, m.core[core]);
        result := AddReadings(result, CStateReadings(m.packageCStates[core], 0));
      }
    }
    AddReadingsAppend(map[], SocketCoreReadings(m, socket, m.NumCores()), m.uncore[socket]);
    result := AddReadings(result, m.uncore[socket]);
  }

  lemma {:induction false} SocketCoreAmount(m: Machine, f: Field, s: nat, n: nat)
    requires m.Valid() && n <= m.NumCores()
    ensures Amount(SocketCoreReadings(m, s, n), f) ==
            Sum(OnSocket(m.Ids(), CoreAmounts(m, f), s, n)) + Sum(OnSocket(m.Ids(), PackageAmounts(m, f), s, n))
  {
    hide Sum, CStateReadings;
    if n == 0 {
      SumZero(OnSocket(m.Ids(), CoreAmounts(m, f), s, 0));
      SumZero(OnSocket(m.Ids(), PackageAmounts(m, f), s, 0));
    } else {
      SocketCoreAmount(m, f, s, n - 1);
      OnSocketPrefix(m.Ids(), CoreAmounts(m, f), s, n);
      OnSocketPrefix(m.Ids(), PackageAmounts(m, f), s, n);
      var states := CStateReadings(m.packageCStates[n - 1], 0);
      AmountAppend(m.core[n - 1], states, f);
      AmountAppend(SocketCoreReadings(m, s, n - 1),
                   if m.online[n - 1] && m.socketId[n - 1] == s then m.core[n - 1] + states else [], f);
    }
  }

  /** The cores' own states hold basic fields only. */
  lemma UncoreNotFromCores(m: Machine, f: Field, s: nat)
    requires m.Valid() && s < m.numSockets && !IsBasic(f)
    ensures Sum(OnSocket(m.Ids(), CoreAmounts(m, f), s, m.NumCores())) == 0
  {
    forall c | 0 <= c < m.NumCores() ensures CoreAmounts(m, f)[c] == 0 {
      AmountOfOtherFields(m.core[c], f);
    }
    SumZero(OnSocket(m.Ids(), CoreAmounts(m, f), s, m.NumCores()));
  }

  /** With uncore counters on, the parallel state of a socket equals what getSocketCounterState returns for
      it, in every field, whichever sockets are online and whatever the interleaving. */
  lemma SocketEqualsSequential(m: Machine, t: State, f: Field, s: nat)
    requires m.Valid() && s < m.numSockets && Collected(m, true, t)
    ensures Get(SocketsAfter(m, t.mem, m.NumCores())[s], f) == Get(SequentialSocketState(m, s), f)
  {
    WrapZero();
    hide Wrap, Sum, OnSocket, Amount, AddReadings, SocketsAfter, Collected, SocketCoreReadings;
    SocketResult(m, true, t, f, s);
    var cores := SocketCoreReadings(m, s, m.NumCores());
    AddReadingsGet(map[], cores + m.uncore[s], f);
    AmountAppend(cores, m.uncore[s], f);
    SocketCoreAmount(m, f, s, m.NumCores());
    if IsBasic(f) {
      BasicOnlyFromCores(m, f, s);
    } else {
      UncoreNotFromCores(m, f, s);
    }
  }

  // ---------------------------------------------------------------------------------------
  // Parallel equals sequential

  lemma BasicAndUncoreDisjoint(m: Machine, f: Field)
    requires m.Valid()
    ensures IsBasic(f) ==> Sum(PackageAmounts(m, f)) == 0 && Sum(UncoreAmounts(m, f)) == 0
    ensures !IsBasic(f) ==> Sum(CoreAmounts(m, f)) == 0
  {
    if IsBasic(f) {
      forall c | 0 <= c < m.NumCores() ensures PackageAmounts(m, f)[c] == 0 {
        CStateReadingsFields(m.packageCStates[c], 0);
        AmountOfOtherFields(CStateReadings(m.packageCStates[c], 0), f);
      }
      forall s | 0 <= s < m.numSockets ensures UncoreAmounts(m, f)[s] == 0 {
        AmountOfOtherFields(m.uncore[s], f);
      }
      SumZero(PackageAmounts(m, f));
      SumZero(UncoreAmounts(m, f));
    } else {
      forall c | 0 <= c < m.NumCores() ensures CoreAmounts(m, f)[c] == 0 {
        AmountOfOtherFields(m.core[c], f);
      }
      SumZero(CoreAmounts(m, f));
    }
  }

  /** What one field would receive from the sockets without a reference core. */
  function OfflineUncoreAmounts(m: Machine, f: Field): seq<int>
    requires m.Valid()
  {
    seq(m.numSockets, s requires 0 <= s < m.numSockets =>
      if m.socketRefCore[s] == -1 then Amount(m.uncore[s], f) else 0)
  }

  lemma OnlineAndOffline(m: Machine, f: Field)
    requires m.Valid()
    ensures Sum(UncoreAmounts(m, f)) == Sum(OnlineUncoreAmounts(m, f)) + Sum(OfflineUncoreAmounts(m, f))
  {
    SumPointwise(OnlineUncoreAmounts(m, f), OfflineUncoreAmounts(m, f), UncoreAmounts(m, f));
  }

  /** With uncore counters included, a field of the parallel result equals the same field of the
      sequential one if and only if the sequential total is 0 modulo 2^64, for the near-memory counts and
      power-plane energies, which += leaves out, or what the sockets without a reference core counted is
      0 modulo 2^64, for all other fields. */
  lemma ParallelEqualsSequential(m: Machine, t: State, f: Field)
    requires m.Valid() && Collected(m, true, t)
    ensures Get(SystemState(m, t.mem), f) == Get(SequentialState(m), f) <==>
            if f.UncNMMiss? || f.UncNMHit? || f.PPEnergyStatus? then Wrap(SequentialAmount(m, f)) == 0
            else Wrap(Sum(OfflineUncoreAmounts(m, f))) == 0
  {
    hide Wrap, Sum, Collected, SystemState, SequentialState, CoreAmounts, PackageAmounts, UncoreAmounts;
    hide OnlineUncoreAmounts, OfflineUncoreAmounts;
    ParallelResult(m, true, t, f);
    SequentialResult(m, f);
    BasicAndUncoreDisjoint(m, f);
    OnlineAndOffline(m, f);
    if IsBasic(f) {
      OnlineUncoreNotBasic(m, f);
    }
    WrapCancel(SequentialAmount(m, f), Sum(OfflineUncoreAmounts(m, f)));
  }

  lemma WrapCancel(x: int, y: int)
    ensures Wrap(x + y) == Wrap(x) <==> Wrap(y) == 0
  {
  }

  /** With all sockets online the two forms agree on each of these fields, whatever was read. */
  lemma SummedFieldsAgree(m: Machine, t: State, f: Field)
    requires m.Valid() && Collected(m, true, t)
    requires forall s :: 0 <= s < m.numSockets ==> m.socketRefCore[s] != -1
    requires
      f.InstRetiredAny? || f.CpuClkUnhaltedThread? || f.CpuClkUnhaltedRef? || f.Event? || f.Overflows? ||
      f.InvariantTSC? || f.CoreCState? || f.SMICount? || f.UncMCFullWrites? || f.UncMCNormalReads? ||
      f.UncHARequests? || f.UncHALocalRequests? || f.UncPMMWrites? || f.UncPMMReads? || f.UncEDCFullWrites? ||
      f.UncEDCNormalReads? || f.UncMCGTRequests? || f.UncMCIARequests? || f.UncMCIORequests? ||
      f.PackageEnergyStatus? || f.DRAMEnergyStatus? || f.TOROccupancyIAMiss? || f.TORInsertsIAMiss? ||
      f.UncClocks? || f.PackageCState?
    ensures Get(SystemState(m, t.mem), f) == Get(SequentialState(m), f)
  {
    WrapZero();
    hide Wrap;
    ParallelEqualsSequential(m, t, f);
    SumZero(OfflineUncoreAmounts(m, f));
  }

  /** Without the uncore counters, nothing but the cores' own fields arrives in the system. */
  lemma WithoutUncoreCounters(m: Machine, t: State, f: Field)
    requires m.Valid() && Collected(m, false, t)
    requires !f.InstRetiredAny? && !f.CpuClkUnhaltedThread? && !f.CpuClkUnhaltedRef? && !f.Event? && !f.Overflows?
    requires !f.InvariantTSC? && !f.CoreCState? && !f.SMICount?
    ensures Get(SystemState(m, t.mem), f) == 0
  {
    WrapZero();
    hide Wrap, SystemState, Collected;
    ParallelResult(m, false, t, f);
  }

  /** The state of a core holds exactly what its own reads executed. */
  lemma CoreStateResult(m: Machine, uncore: bool, t: State, f: Field, c: nat)
    requires m.Valid() && Collected(m, uncore, t) && c < m.NumCores() && m.online[c]
    ensures Get(SlotState(t.mem, OfCore(c)), f) == Get(AddReadings(map[], m.core[c]), f)
  {
    WrapZero();
    hide Wrap, AddReadings, Collected;
    SlotResult(m, uncore, t, f, m.socketId[c]);
    AddReadingsGet(map[], m.core[c], f);
  }

  /** The parallel system state never holds anything in these fields. */
  lemma DroppedFieldsAreZero(m: Machine, uncore: bool, t: State, f: Field)
    requires m.Valid() && Collected(m, uncore, t)
    requires f.UncNMMiss? || f.UncNMHit? || f.PPEnergyStatus?
    ensures Get(SystemState(m, t.mem), f) == 0
  {
    hide Wrap, SystemState, Collected;
    ParallelResult(m, uncore, t, f);
  }

  /** The workers of a machine that was just started. */
  function FreshWorkers(n: nat): seq<Core> {
    seq(n, c => Core([], Free, Starting, []))
  }

  function FirstState(m: Machine, uncore: bool): State
    requires m.Valid()
  {
    var plan := CollectionPlan(m, uncore);
    State(FreshWorkers(m.NumCores()), if plan == [] then WaitingFor(0) else Pushing(0, Locking),
          map[], seq(|plan|, k => 0), seq(|plan|, k => false))
  }

  /** getAllCounterStates can return on every machine: some run of its plan finishes. */
  lemma CanCollect(m: Machine, uncore: bool) returns (t: State)
    requires m.Valid()
    ensures Collected(m, uncore, t)
  {
    var plan := CollectionPlan(m, uncore);
    var s := FirstState(m, uncore);
    CollectionExclusive(m, uncore);
    hide CollectionPlan;
    assert Initial(plan, s);
    InitialControl(plan, s);
    var steps;
    steps, t := CanFinish(plan, s);
  }

  /** One core on one socket, and a single reading: of the core for the basic fields, of the socket for
      the others. */
  function OneReading(f: Field, v: int): Machine {
    var ofCore :=
      f.InstRetiredAny? || f.CpuClkUnhaltedThread? || f.CpuClkUnhaltedRef? || f.Event? || f.Overflows? ||
      f.InvariantTSC? || f.CoreCState? || f.SMICount?;
    Machine(1, [0], [true], [0], [if ofCore then [Reading(f, v)] else []], [seq(MAX_C_STATE + 1, i => 0)],
            [if ofCore then [] else [Reading(f, v)]])
  }

  /** Every single reading arrives in the sequential form, and in the parallel one unless += leaves its
      field out. */
  lemma OneReadingArrives(f: Field, v: int) returns (t: State)
    requires !f.PackageCState?
    ensures OneReading(f, v).Valid() && Collected(OneReading(f, v), true, t)
    ensures Get(SequentialState(OneReading(f, v)), f) == Wrap(v)
    ensures Get(SystemState(OneReading(f, v), t.mem), f) ==
            if f.UncNMMiss? || f.UncNMHit? || f.PPEnergyStatus? then 0 else Wrap(v)
  {
    var m := OneReading(f, v);
    AmountsOfOneReading(f, v);
    WrapZero();
    hide SystemState, SequentialState, Wrap, OneReading, Collected, OfflineUncoreAmounts;
    t := CanCollect(m, true);
    SequentialResult(m, f);
    ParallelEqualsSequential(m, t, f);
    ParallelResult(m, true, t, f);
  }

  lemma AmountsOfOneReading(f: Field, v: int)
    requires !f.PackageCState?
    ensures OneReading(f, v).Valid() && SequentialAmount(OneReading(f, v), f) == v
    ensures Sum(OfflineUncoreAmounts(OneReading(f, v), f)) == 0
  {
    var m := OneReading(f, v);
    NoCStates(m.packageCStates[0], 0);
    assert Amount([Reading(f, v)], f) == v + Amount([], f);
    SumOfOne(CoreAmounts(m, f));
    SumOfOne(PackageAmounts(m, f));
    SumOfOne(OnlineUncoreAmounts(m, f));
    SumOfOne(OfflineUncoreAmounts(m, f));
  }

  lemma SumOfOne(s: seq<int>)
    requires |s| == 1
    ensures Sum(s) == s[0]
  {
    assert s[..0] == [];
  }

  /** An input on which the two forms differ: the parallel one loses a near-memory hit. */
  lemma ParallelLosesHit() returns (t: State)
    ensures OneReading(UncNMHit, 1).Valid() && Collected(OneReading(UncNMHit, 1), true, t)
    ensures Get(SystemState(OneReading(UncNMHit, 1), t.mem), UncNMHit) == 0
    ensures Get(SequentialState(OneReading(UncNMHit, 1)), UncNMHit) == 1
  {
    t := OneReadingArrives(UncNMHit, 1);
  }

  lemma {:induction false} NoCStates(values: seq<int>, i: nat)
    requires i <= |values| && forall j :: 0 <= j < |values| ==> values[j] == 0
    ensures CStateReadings(values, i) == []
    decreases |values| - i
  {
    if i < |values| {
      NoCStates(values, i + 1);
    }
  }

  lemma OnlineUncoreNotBasic(m: Machine, f: Field)
    requires m.Valid() && IsBasic(f)
    ensures Sum(OnlineUncoreAmounts(m, f)) == 0
  {
    forall s | 0 <= s < m.numSockets ensures OnlineUncoreAmounts(m, f)[s] == 0 {
      AmountOfOtherFields(m.uncore[s], f);
    }
    SumZero(OnlineUncoreAmounts(m, f));
  }

  /** Without the uncore counters the parallel result still has every core counter right, whether or
      not all sockets are online. */
  lemma ParallelCoreCounters(m: Machine, uncore: bool, t: State, f: Field)
    requires m.Valid() && Collected(m, uncore, t)
    requires
      f.InstRetiredAny? || f.CpuClkUnhaltedThread? || f.CpuClkUnhaltedRef? || f.Event? || f.Overflows? ||
      f.InvariantTSC? || f.CoreCState? || f.SMICount?
    ensures Get(SystemState(m, t.mem), f) == Get(SequentialState(m), f)
  {
    hide Wrap, Sum, Collected, SystemState, SequentialState, CoreAmounts, PackageAmounts, UncoreAmounts;
    hide OnlineUncoreAmounts;
    ParallelResult(m, uncore, t, f);
    SequentialResult(m, f);
    BasicAndUncoreDisjoint(m, f);
    OnlineUncoreNotBasic(m, f);
  }

  /** Reading the residencies adds value j to C-state j and to no other. */
  lemma {:induction false} CStateAmount(values: seq<int>, i: nat, j: nat)
    requires i <= |values|
    ensures Amount(CStateReadings(values, i), PackageCState(j)) == if i <= j < |values| then values[j] else 0
    decreases |values| - i
  {
    if i < |values| {
      CStateAmount(values, i + 1, j);
      var first := if values[i] != 0 then [Reading(PackageCState(i), values[i])] else [];
      AmountAppend(first, CStateReadings(values, i + 1), PackageCState(j));
      assert values[i] != 0 ==> Amount(first, PackageCState(j)) == if i == j then values[i] else 0;
    }
  }

  /** What each core reads for package C-state i, 0 for an offline one. */
  function Residencies(m: Machine, i: nat): seq<int>
    requires m.Valid() && i <= MAX_C_STATE
  {
    seq(m.NumCores(), c requires 0 <= c < m.NumCores() => if m.online[c] then m.packageCStates[c][i] else 0)
  }

  lemma ResidencyAmounts(m: Machine, i: nat)
    requires m.Valid() && i <= MAX_C_STATE
    ensures PackageAmounts(m, PackageCState(i)) == Residencies(m, i)
  {
    forall c | 0 <= c < m.NumCores() ensures PackageAmounts(m, PackageCState(i))[c] == Residencies(m, i)[c] {
      CStateAmount(m.packageCStates[c], 0, i);
    }
  }

  lemma ResidenciesOnlyFromCores(m: Machine, i: nat)
    requires m.Valid()
    ensures Sum(UncoreAmounts(m, PackageCState(i))) == Sum(OnlineUncoreAmounts(m, PackageCState(i))) == 0
  {
    forall s | 0 <= s < m.numSockets ensures Amount(m.uncore[s], PackageCState(i)) == 0 {
      AmountOfOtherFields(m.uncore[s], PackageCState(i));
    }
    SumZero(UncoreAmounts(m, PackageCState(i)));
    SumZero(OnlineUncoreAmounts(m, PackageCState(i)));
  }

  /** The residency of package C-state i in the system state: the sum of what the online cores read for that
      state, in both forms. */
  lemma ResidencyResult(m: Machine, t: State, i: nat)
    requires m.Valid() && Collected(m, true, t) && i <= MAX_C_STATE
    ensures Get(SystemState(m, t.mem), PackageCState(i)) == Wrap(Sum(Residencies(m, i)))
    ensures Get(SequentialState(m), PackageCState(i)) == Wrap(Sum(Residencies(m, i)))
  {
    hide Wrap, Sum, Collected, SystemState, SequentialState, CoreAmounts, PackageAmounts, UncoreAmounts;
    hide OnlineUncoreAmounts, Residencies;
    ResidencyAmounts(m, i);
    ResidenciesOnlyFromCores(m, i);
    BasicAndUncoreDisjoint(m, PackageCState(i));
    ParallelResult(m, true, t, PackageCState(i));
    SequentialResult(m, PackageCState(i));
  }

  /** The task of a socket runs after the core task of its reference core. */
  lemma SocketTaskAfterCoreTask(m: Machine, t: State, s: nat, k: nat)
    requires m.Valid() && s < m.numSockets && 0 <= m.socketRefCore[s] && m.online[m.socketRefCore[s]]
    requires Reachable(CollectionPlan(m, true), t) && Shape(CollectionPlan(m, true), t)
    requires k < |CollectionPlan(m, true)| && CollectionPlan(m, true)[k].owner == OfSocket(s)
    requires t.progress[k] > 0 || t.ready[k]
    ensures exists j :: 0 <= j < |CollectionPlan(m, true)|
                        && CollectionPlan(m, true)[j].owner == OfCore(m.socketRefCore[s])
                        && t.ready[j] && t.progress[j] == |CollectionPlan(m, true)[j].ops|
  {
    var plan := CollectionPlan(m, true);
    CoreTasksShape(m, true, m.NumCores());
    SocketTasksShape(m, m.numSockets);
    var j := CoreTaskIndex(m, m.socketRefCore[s], m.NumCores());
    assert plan[j] == CoreTasks(m, true, m.NumCores())[j];
    assert plan[k].core == m.socketRefCore[s];
    RunsInPushOrder(plan, t, j, k);
  }

  lemma {:induction false} CoreTaskIndex(m: Machine, c: nat, n: nat) returns (j: nat)
    requires m.Valid() && c < n <= m.NumCores() && m.online[c]
    ensures j < |CoreTasks(m, true, n)| && CoreTasks(m, true, n)[j] == CoreTask(m, true, c)
  {
    if c == n - 1 {
      j := |CoreTasks(m, true, n - 1)|;
    } else {
      j := CoreTaskIndex(m, c, n - 1);
    }
  }
}
