/** CoreTaskQueue as a step system: one worker, one mutex, one condition variable and one
    queue per core, and a main thread that pushes a plan of tasks and waits for all of them.
    A step is one access to shared state; any enabled step may come next, and a waiting
    worker may wake up spuriously at any time. */
module CoreTaskQueue {
  import opened Sums
  import opened CounterStates
  import opened Options

  /** The accumulators the tasks write: a core's state, and a socket's uncore state. */
  datatype Loc = CoreLoc(core: nat, field: Field) | SocketLoc(socket: nat, field: Field)

  /** `+=` on a plain variable is a load and a store; atomic_fetch_add is one step. */
  datatype Op = PlainAdd(loc: Loc, value: int) | AtomicAdd(loc: Loc, value: int)

  datatype Owner = OfCore(core: nat) | OfSocket(socket: nat)

  /** A packaged task: the queue it is pushed to, whose slot it fills, and what it executes. */
  datatype Task = Task(core: nat, owner: Owner, ops: seq<Op>)

  type Plan = seq<Task>

  datatype Holder = Free | ByWorker | ByMain

  /** The program counter of a worker. It holds the mutex everywhere except in Starting,
      Waiting and Woken. PopPrevious is the pop that may still be outstanding from an earlier
      round, whose futures became ready before it. */
  datatype Worker =
    | Starting | CheckOuter | Waiting | Woken | CheckInner
    | Running(register: Option<int>) | Popping | PopPrevious

  /** done records, in order, the tasks that the worker has run and popped. */
  datatype Core = Core(queue: seq<nat>, mutex: Holder, worker: Worker, done: seq<nat>)

  datatype Stage = Locking | Holding | Pushed | Notified

  datatype Main = Pushing(task: nat, stage: Stage) | WaitingFor(task: nat)

  type Memory = map<Loc, int>

  function Load(mem: Memory, l: Loc): int {
    if l in mem then mem[l] else 0
  }

  /** progress[k] counts the executed operations of task k, ready[k] is its future. */
  datatype State = State(cores: seq<Core>, main: Main, mem: Memory, progress: seq<nat>, ready: seq<bool>)

  datatype Step =
    | MainLock | MainPush | MainNotify | MainUnlock | MainWait
    | Acquire(core: nat) | SpuriousWakeup(core: nat) | Outer(core: nat) | Inner(core: nat)
    | Execute(core: nat) | Return(core: nat) | Pop(core: nat)

  predicate HoldsMutex(w: Worker) {
    !(w.Starting? || w.Waiting? || w.Woken?)
  }

  predicate IsWorkerStep(step: Step) {
    !(step.MainLock? || step.MainPush? || step.MainNotify? || step.MainUnlock? || step.MainWait?)
  }

  predicate Shape(plan: Plan, s: State) {
    && |s.progress| == |s.ready| == |plan|
    && (forall k :: 0 <= k < |plan| ==> plan[k].core < |s.cores| && s.progress[k] <= |plan[k].ops|)
    && (forall c, i :: 0 <= c < |s.cores| && 0 <= i < |s.cores[c].queue| ==> s.cores[c].queue[i] < |plan|)
    && (match s.main case Pushing(k, _) => k < |plan| case WaitingFor(k) => k <= |plan|)
  }

  predicate MainAt(s: State, stage: Stage) {
    s.main.Pushing? && s.main.stage == stage
  }

  predicate IsRunning(s: State, c: nat) {
    c < |s.cores| && s.cores[c].worker.Running? && s.cores[c].queue != []
  }

  predicate Enabled(plan: Plan, s: State, step: Step)
    requires Shape(plan, s)
  {
    match step
    case MainLock => MainAt(s, Locking) && s.cores[plan[s.main.task].core].mutex == Free
    case MainPush => MainAt(s, Holding)
    case MainNotify => MainAt(s, Pushed)
    case MainUnlock => MainAt(s, Notified)
    case MainWait => s.main.WaitingFor? && s.main.task < |plan| && s.ready[s.main.task]
    case Acquire(c) =>
      c < |s.cores| && s.cores[c].mutex == Free && (s.cores[c].worker.Starting? || s.cores[c].worker.Woken?)
    case SpuriousWakeup(c) => c < |s.cores| && s.cores[c].worker.Waiting?
    case Outer(c) => c < |s.cores| && s.cores[c].worker.CheckOuter?
    case Inner(c) => c < |s.cores| && s.cores[c].worker.CheckInner?
    case Execute(c) => IsRunning(s, c) && s.progress[s.cores[c].queue[0]] < |plan[s.cores[c].queue[0]].ops|
    case Return(c) => IsRunning(s, c) && s.progress[s.cores[c].queue[0]] == |plan[s.cores[c].queue[0]].ops|
    case Pop(c) =>
      c < |s.cores| && ((s.cores[c].worker.Popping? && s.cores[c].queue != []) || s.cores[c].worker.PopPrevious?)
  }

  function WithCore(s: State, c: nat, core: Core): State
    requires c < |s.cores|
  {
    s.(cores := s.cores[c := core])
  }

  /** One operation of the task at the head of core c's queue. */
  function ExecuteOp(plan: Plan, s: State, c: nat): State
    requires Shape(plan, s) && Enabled(plan, s, Execute(c))
  {
    var core := s.cores[c];
    var k := core.queue[0];
    var op := plan[k].ops[s.progress[k]];
    if op.PlainAdd? && core.worker.register.None? then
      WithCore(s, c, core.(worker := Running(Some(Load(s.mem, op.loc)))))
    else
      var before := if op.PlainAdd? then core.worker.register.value else Load(s.mem, op.loc);
      WithCore(s, c, core.(worker := Running(None))).(
        mem := s.mem[op.loc := Wrap(before + op.value)],
        progress := s.progress[k := s.progress[k] + 1])
  }

  function Next(plan: Plan, s: State, step: Step): State
    requires Shape(plan, s) && Enabled(plan, s, step)
  {
    match step
    case MainLock =>
      var c := plan[s.main.task].core;
      WithCore(s, c, s.cores[c].(mutex := ByMain)).(main := s.main.(stage := Holding))
    case MainPush =>
      var c := plan[s.main.task].core;
      WithCore(s, c, s.cores[c].(queue := s.cores[c].queue + [s.main.task])).(main := s.main.(stage := Pushed))
    case MainNotify =>
      var c := plan[s.main.task].core;
      var woken := if s.cores[c].worker.Waiting? then Woken else s.cores[c].worker;
      WithCore(s, c, s.cores[c].(worker := woken)).(main := s.main.(stage := Notified))
    case MainUnlock =>
      var c := plan[s.main.task].core;
      var next := s.main.task + 1;
      WithCore(s, c, s.cores[c].(mutex := Free)).(
        main := if next < |plan| then Pushing(next, Locking) else WaitingFor(0))
    case MainWait => s.(main := WaitingFor(s.main.task + 1))
    case Acquire(c) => WithCore(s, c, s.cores[c].(mutex := ByWorker, worker := CheckOuter))
    case SpuriousWakeup(c) => WithCore(s, c, s.cores[c].(worker := Woken))
    case Outer(c) =>
      WithCore(s, c, if s.cores[c].queue == [] then s.cores[c].(mutex := Free, worker := Waiting)
                     else s.cores[c].(worker := CheckInner))
    case Inner(c) =>
      WithCore(s, c, s.cores[c].(worker := if s.cores[c].queue == [] then CheckOuter else Running(None)))
    case Execute(c) => ExecuteOp(plan, s, c)
    case Return(c) =>
      WithCore(s, c, s.cores[c].(worker := Popping)).(ready := s.ready[s.cores[c].queue[0] := true])
    case Pop(c) =>
      if s.cores[c].worker.PopPrevious? then WithCore(s, c, s.cores[c].(worker := CheckInner))
      else
        var core := s.cores[c];
        WithCore(s, c, core.(queue := core.queue[1..], done := core.done + [core.queue[0]], worker := CheckInner))
  }

  /** The states in which a round may begin: queues empty, nobody inside push, workers idle. */
  predicate Initial(plan: Plan, s: State) {
    && Shape(plan, s)
    && (forall c :: 0 <= c < |s.cores| ==>
          && s.cores[c].queue == [] && s.cores[c].done == []
          && !s.cores[c].worker.Running? && !s.cores[c].worker.Popping?
          && s.cores[c].mutex == (if HoldsMutex(s.cores[c].worker) then ByWorker else Free))
    && s.main == (if plan == [] then WaitingFor(0) else Pushing(0, Locking))
    && s.mem == map[]
    && (forall k :: 0 <= k < |plan| ==> s.progress[k] == 0 && !s.ready[k])
  }

  /** The main thread has seen every future become ready. */
  predicate Finished(plan: Plan, s: State) {
    s.main == WaitingFor(|plan|)
  }

  // ---------------------------------------------------------------------------------------
  // Invariants

  /** How many tasks have been put into queues. */
  function PushedCount(plan: Plan, main: Main): nat
  {
    match main
    case Pushing(k, stage) => if stage.Locking? || stage.Holding? then k else k + 1
    case WaitingFor(_) => |plan|
  }

  /** The tasks among the first n of the plan that go to core c, in plan order. */
  function Assigned(plan: Plan, c: nat, n: nat): seq<nat>
    requires n <= |plan|
  {
    if n == 0 then [] else
      Assigned(plan, c, n - 1) + if plan[n - 1].core == c then [n - 1] else []
  }

  lemma {:induction false} AssignedSorted(plan: Plan, c: nat, n: nat)
    requires n <= |plan|
    ensures forall i :: 0 <= i < |Assigned(plan, c, n)| ==>
              Assigned(plan, c, n)[i] < n && plan[Assigned(plan, c, n)[i]].core == c
    ensures forall i, j :: 0 <= i < j < |Assigned(plan, c, n)| ==> Assigned(plan, c, n)[i] < Assigned(plan, c, n)[j]
    ensures forall k :: 0 <= k < n && plan[k].core == c ==> k in Assigned(plan, c, n)
  {
    if n > 0 {
      AssignedSorted(plan, c, n - 1);
    }
  }

  /** The main thread holds a mutex exactly between lock and unlock of a push. */
  predicate MainHolds(plan: Plan, main: Main, c: nat) {
    main.Pushing? && !main.stage.Locking? && main.task < |plan| && plan[main.task].core == c
  }

  predicate MutexInv(plan: Plan, core: Core, main: Main, c: nat) {
    && core.mutex == (if HoldsMutex(core.worker) then ByWorker else if MainHolds(plan, main, c) then ByMain else Free)
    && (HoldsMutex(core.worker) ==> !MainHolds(plan, main, c))
  }

  /** No lost wakeup: an un-notified waiting worker has an empty queue, except in the moment
      between queue.push and notify_one, when the pusher still holds the mutex. */
  predicate WakeupInv(plan: Plan, core: Core, main: Main, c: nat) {
    core.worker.Waiting? && core.queue != [] ==> MainHolds(plan, main, c) && main.stage == Pushed
  }

  /** Popped tasks followed by queued tasks are the pushed tasks of that core in push order. */
  predicate OrderInv(plan: Plan, core: Core, main: Main, c: nat)
    requires PushedCount(plan, main) <= |plan|
  {
    && core.done + core.queue == Assigned(plan, c, PushedCount(plan, main))
    && (core.worker.Running? || core.worker.Popping? ==> core.queue != [])
  }

  /** A popped task is ready; so is the head once the worker is about to pop it, not before. */
  predicate ReadyInv(core: Core, ready: seq<bool>) {
    && (forall i :: 0 <= i < |core.done| ==> core.done[i] < |ready| && ready[core.done[i]])
    && (core.queue != [] && core.queue[0] < |ready| ==>
          (core.worker.Popping? ==> ready[core.queue[0]]) && (core.worker.Running? ==> !ready[core.queue[0]]))
  }

  predicate CoreInv(plan: Plan, core: Core, main: Main, ready: seq<bool>, c: nat)
    requires PushedCount(plan, main) <= |plan|
  {
    && MutexInv(plan, core, main, c) && WakeupInv(plan, core, main, c)
    && OrderInv(plan, core, main, c) && ReadyInv(core, ready)
  }

  /** Task k is the one that core's worker is running or about to pop. */
  predicate AtHead(core: Core, k: nat) {
    core.queue != [] && core.queue[0] == k && (core.worker.Running? || core.worker.Popping?)
  }

  /** A task has made progress only if it was popped or is the head being run; a loaded register
      waits for its store. */
  predicate TaskInv(plan: Plan, s: State, k: nat)
    requires Shape(plan, s) && k < |plan|
  {
    && (s.ready[k] ==> s.progress[k] == |plan[k].ops|)
    && (s.progress[k] > 0 || s.ready[k] ==>
          k in s.cores[plan[k].core].done || AtHead(s.cores[plan[k].core], k))
    && (AtHead(s.cores[plan[k].core], k) && s.cores[plan[k].core].worker.Running? ==>
          (s.cores[plan[k].core].worker.register.Some? ==> s.progress[k] < |plan[k].ops|))
  }

  predicate ControlInv(plan: Plan, s: State) {
    && Shape(plan, s)
    && PushedCount(plan, s.main) <= |plan|
    && (s.main.WaitingFor? ==> forall k :: 0 <= k < s.main.task ==> s.ready[k])
    && (forall c :: 0 <= c < |s.cores| ==> CoreInv(plan, s.cores[c], s.main, s.ready, c))
    && (forall k :: 0 <= k < |plan| ==> TaskInv(plan, s, k))
  }

  lemma InitialControl(plan: Plan, s: State)
    requires Initial(plan, s)
    ensures ControlInv(plan, s)
  {
  }

  /** Every element of a core's queue is a task of that core. */
  lemma QueueMember(plan: Plan, s: State, c: nat, i: nat)
    requires ControlInv(plan, s) && c < |s.cores| && i < |s.cores[c].queue|
    ensures s.cores[c].queue[i] < |plan| && plan[s.cores[c].queue[i]].core == c
    ensures s.cores[c].queue[i] !in s.cores[c].done
  {
    var core := s.cores[c];
    var n := PushedCount(plan, s.main);
    AssignedSorted(plan, c, n);
    assert CoreInv(plan, core, s.main, s.ready, c);
    assert (core.done + core.queue)[|core.done| + i] == core.queue[i];
    forall j | 0 <= j < |core.done| ensures core.done[j] != core.queue[i] {
      assert (core.done + core.queue)[j] == core.done[j];
    }
  }

  lemma QueueSorted(plan: Plan, s: State, c: nat)
    requires ControlInv(plan, s) && c < |s.cores|
    ensures forall i, j :: 0 <= i < j < |s.cores[c].queue| ==> s.cores[c].queue[i] < s.cores[c].queue[j]
  {
    var core := s.cores[c];
    assert CoreInv(plan, core, s.main, s.ready, c);
    AssignedSorted(plan, c, PushedCount(plan, s.main));
    var all := core.done + core.queue;
    assert forall i :: 0 <= i < |core.queue| ==> core.queue[i] == all[|core.done| + i];
  }

  lemma StepShape(plan: Plan, s: State, step: Step)
    requires Shape(plan, s) && Enabled(plan, s, step)
    ensures Shape(plan, Next(plan, s, step)) && PushedCount(plan, Next(plan, s, step).main) <= |plan|
  {
  }

  /** A step of the main thread keeps every core's invariant. */
  lemma MainStepCore(plan: Plan, s: State, step: Step, c: nat)
    requires ControlInv(plan, s) && Enabled(plan, s, step) && c < |s.cores|
    requires !IsWorkerStep(step)
    ensures var t := Next(plan, s, step);
            PushedCount(plan, t.main) <= |plan| && CoreInv(plan, t.cores[c], t.main, t.ready, c)
  {
    assert CoreInv(plan, s.cores[c], s.main, s.ready, c);
    if step.MainPush? {
      var t := Next(plan, s, step);
      var k := s.main.task;
      if c == plan[k].core {
        assert t.cores[c].done + t.cores[c].queue == (s.cores[c].done + s.cores[c].queue) + [k];
      }
    }
  }

  /** A step of another core's worker changes at most the future of its own head. */
  lemma OtherWorkerStep(plan: Plan, s: State, step: Step, c: nat)
    requires ControlInv(plan, s) && Enabled(plan, s, step) && c < |s.cores|
    requires IsWorkerStep(step) && c != step.core
    ensures var t := Next(plan, s, step); CoreInv(plan, t.cores[c], t.main, t.ready, c)
  {
    var t := Next(plan, s, step);
    assert CoreInv(plan, s.cores[c], s.main, s.ready, c);
    assert t.cores[c] == s.cores[c] && t.main == s.main;
    if step.Return? {
      QueueMember(plan, s, step.core, 0);
      if s.cores[c].queue != [] {
        QueueMember(plan, s, c, 0);
      }
    } else {
      assert t.ready == s.ready;
    }
  }

  /** A worker's own step keeps its core's invariant. */
  lemma OwnWorkerStep(plan: Plan, s: State, step: Step, c: nat)
    requires ControlInv(plan, s) && Enabled(plan, s, step) && c < |s.cores|
    requires IsWorkerStep(step) && c == step.core
    ensures var t := Next(plan, s, step); CoreInv(plan, t.cores[c], t.main, t.ready, c)
  {
    assert CoreInv(plan, s.cores[c], s.main, s.ready, c);
    if s.cores[c].queue != [] {
      QueueMember(plan, s, c, 0);
      assert TaskInv(plan, s, s.cores[c].queue[0]);
    }
    var t := Next(plan, s, step);
    match step
    case Acquire(_) =>
    case SpuriousWakeup(_) =>
    case Outer(_) =>
    case Inner(_) =>
    case Execute(_) => assert t.ready == s.ready && t.cores[c].queue == s.cores[c].queue;
    case Return(_) =>
    case Pop(_) =>
      if s.cores[c].worker.Popping? {
        var q := s.cores[c].queue;
        assert q == [q[0]] + q[1..];
        assert t.cores[c].done + t.cores[c].queue == s.cores[c].done + q;
      }
  }

  lemma MainStepTask(plan: Plan, s: State, step: Step, k: nat)
    requires ControlInv(plan, s) && Enabled(plan, s, step) && k < |plan| && !IsWorkerStep(step)
    ensures Shape(plan, Next(plan, s, step)) && TaskInv(plan, Next(plan, s, step), k)
  {
    StepShape(plan, s, step);
    assert TaskInv(plan, s, k);
    hide PushedCount, CoreInv;
  }

  lemma WorkerStepTask(plan: Plan, s: State, step: Step, k: nat)
    requires ControlInv(plan, s) && Enabled(plan, s, step) && k < |plan| && IsWorkerStep(step)
    ensures Shape(plan, Next(plan, s, step)) && TaskInv(plan, Next(plan, s, step), k)
  {
    hide PushedCount, CoreInv;
    StepShape(plan, s, step);
    assert TaskInv(plan, s, k);
    if s.cores[step.core].queue != [] {
      QueueMember(plan, s, step.core, 0);
    }
    if plan[k].core == step.core {
      OwnTask(plan, s, step, k);
    } else {
      OtherTask(plan, s, step, k);
    }
  }

  /** The worker of the task's own core changes its progress, its future or its place in the queue. */
  lemma OwnTask(plan: Plan, s: State, step: Step, k: nat)
    requires Shape(plan, s) && Enabled(plan, s, step) && k < |plan| && IsWorkerStep(step)
    requires TaskInv(plan, s, k) && plan[k].core == step.core
    requires Shape(plan, Next(plan, s, step))
    ensures TaskInv(plan, Next(plan, s, step), k)
  {
    match step
    case Acquire(_) =>
    case SpuriousWakeup(_) =>
    case Outer(_) =>
    case Inner(_) =>
    case Execute(_) =>
    case Return(_) =>
    case Pop(_) =>
  }

  /** No other worker touches it. */
  lemma OtherTask(plan: Plan, s: State, step: Step, k: nat)
    requires Shape(plan, s) && Enabled(plan, s, step) && k < |plan| && IsWorkerStep(step)
    requires TaskInv(plan, s, k) && plan[k].core != step.core
    requires s.cores[step.core].queue != [] ==> s.cores[step.core].queue[0] != k
    requires Shape(plan, Next(plan, s, step))
    ensures TaskInv(plan, Next(plan, s, step), k)
  {
    var t := Next(plan, s, step);
    assert t.cores[plan[k].core] == s.cores[plan[k].core];
    assert t.progress[k] == s.progress[k] && t.ready[k] == s.ready[k];
  }

  lemma StepControl(plan: Plan, s: State, step: Step)
    requires ControlInv(plan, s) && Enabled(plan, s, step)
    ensures ControlInv(plan, Next(plan, s, step))
  {
    StepShape(plan, s, step);
    var t := Next(plan, s, step);
    forall c | 0 <= c < |t.cores| ensures CoreInv(plan, t.cores[c], t.main, t.ready, c) {
      if !IsWorkerStep(step) {
        MainStepCore(plan, s, step, c);
      } else if c != step.core {
        OtherWorkerStep(plan, s, step, c);
      } else {
        OwnWorkerStep(plan, s, step, c);
      }
    }
    forall k | 0 <= k < |plan| ensures TaskInv(plan, t, k) {
      if IsWorkerStep(step) {
        WorkerStepTask(plan, s, step, k);
      } else {
        MainStepTask(plan, s, step, k);
      }
    }
  }

  // ---------------------------------------------------------------------------------------
  // Memory

  function OwnerOf(l: Loc): Owner {
    match l
    case CoreLoc(c, _) => OfCore(c)
    case SocketLoc(s, _) => OfSocket(s)
  }

  /** The accumulators that several tasks add to, the package C-state residencies. */
  predicate Shared(l: Loc) {
    l.SocketLoc? && l.field.PackageCState?
  }

  /** Plain additions go only to the slot a task owns, and no two tasks own the same slot. */
  predicate Exclusive(plan: Plan) {
    && (forall i, j :: 0 <= i < j < |plan| ==> plan[i].owner != plan[j].owner)
    && (forall k, p :: 0 <= k < |plan| && 0 <= p < |plan[k].ops| ==>
          if plan[k].ops[p].AtomicAdd? then Shared(plan[k].ops[p].loc)
          else !Shared(plan[k].ops[p].loc) && OwnerOf(plan[k].ops[p].loc) == plan[k].owner)
  }

  /** What a list of operations adds to location l. */
  function Contribution(ops: seq<Op>, l: Loc): int {
    if ops == [] then 0 else (if ops[0].loc == l then ops[0].value else 0) + Contribution(ops[1..], l)
  }

  predicate Within(plan: Plan, progress: seq<nat>) {
    |progress| == |plan| && forall k :: 0 <= k < |plan| ==> progress[k] <= |plan[k].ops|
  }

  /** What the first n tasks have yet to add to location l. */
  function Pending(plan: Plan, progress: seq<nat>, l: Loc, n: nat): int
    requires Within(plan, progress) && n <= |plan|
  {
    if n == 0 then 0 else
      Pending(plan, progress, l, n - 1) + Contribution(plan[n - 1].ops[progress[n - 1]..], l)
  }

  /** What the first n tasks add to location l altogether. */
  function Total(plan: Plan, l: Loc, n: nat): int
    requires n <= |plan|
  {
    if n == 0 then 0 else Total(plan, l, n - 1) + Contribution(plan[n - 1].ops, l)
  }

  lemma {:induction false} PendingAtStart(plan: Plan, progress: seq<nat>, l: Loc, n: nat)
    requires |progress| == |plan| && n <= |plan|
    requires forall k :: 0 <= k < |plan| ==> progress[k] == 0
    ensures Within(plan, progress)
    ensures Pending(plan, progress, l, n) == Total(plan, l, n)
  {
    if n > 0 {
      PendingAtStart(plan, progress, l, n - 1);
      assert plan[n - 1].ops[0..] == plan[n - 1].ops;
    }
  }

  lemma {:induction false} PendingAtEnd(plan: Plan, progress: seq<nat>, l: Loc, n: nat)
    requires |progress| == |plan| && n <= |plan|
    requires forall k :: 0 <= k < |plan| ==> progress[k] == |plan[k].ops|
    ensures Within(plan, progress)
    ensures Pending(plan, progress, l, n) == 0
  {
    if n > 0 {
      PendingAtEnd(plan, progress, l, n - 1);
    }
  }

  /** Executing one more operation of task k takes its value off the pending amount. */
  lemma {:induction false} PendingStep(plan: Plan, progress: seq<nat>, l: Loc, n: nat, k: nat)
    requires Within(plan, progress) && n <= |plan| && k < |plan|
    requires progress[k] < |plan[k].ops|
    ensures Within(plan, progress[k := progress[k] + 1])
    ensures var op := plan[k].ops[progress[k]];
            Pending(plan, progress[k := progress[k] + 1], l, n) ==
            Pending(plan, progress, l, n) - (if k < n && op.loc == l then op.value else 0)
  {
    if n > 0 {
      PendingStep(plan, progress, l, n - 1, k);
      var rest := plan[k].ops[progress[k]..];
      assert rest[1..] == plan[k].ops[progress[k] + 1..];
    }
  }

  /** A loaded register still equals the memory it was loaded from. */
  predicate RegisterInv(plan: Plan, s: State, c: nat)
    requires Shape(plan, s) && c < |s.cores|
  {
    IsRunning(s, c) && s.cores[c].worker.register.Some? ==>
      var k := s.cores[c].queue[0];
      && s.progress[k] < |plan[k].ops|
      && plan[k].ops[s.progress[k]].PlainAdd?
      && Load(s.mem, plan[k].ops[s.progress[k]].loc) == s.cores[c].worker.register.value
  }

  /** Memory and what is still pending at location l make up the plan's total. */
  predicate Conserved(plan: Plan, mem: Memory, progress: seq<nat>, l: Loc) {
    && Within(plan, progress)
    && Load(mem, l) == Wrap(Load(mem, l))
    && Wrap(Load(mem, l) + Pending(plan, progress, l, |plan|)) == Wrap(Total(plan, l, |plan|))
  }

  predicate LocInv(plan: Plan, s: State, l: Loc) {
    Conserved(plan, s.mem, s.progress, l)
  }

  ghost predicate MemoryInv(plan: Plan, s: State)
    requires Shape(plan, s)
  {
    && (forall c :: 0 <= c < |s.cores| ==> RegisterInv(plan, s, c))
    && (forall l :: LocInv(plan, s, l))
  }

  /** Two cores' heads never add plainly to the same location: this is why no load of one
      worker can be overtaken by a store of another. */
  lemma HeadsDisjoint(plan: Plan, s: State, c: nat, d: nat)
    requires Exclusive(plan) && ControlInv(plan, s)
    requires c != d && IsRunning(s, c) && IsRunning(s, d)
    requires s.progress[s.cores[c].queue[0]] < |plan[s.cores[c].queue[0]].ops|
    requires s.progress[s.cores[d].queue[0]] < |plan[s.cores[d].queue[0]].ops|
    requires plan[s.cores[d].queue[0]].ops[s.progress[s.cores[d].queue[0]]].PlainAdd?
    ensures plan[s.cores[c].queue[0]].ops[s.progress[s.cores[c].queue[0]]].loc
            != plan[s.cores[d].queue[0]].ops[s.progress[s.cores[d].queue[0]]].loc
  {
    QueueMember(plan, s, c, 0);
    QueueMember(plan, s, d, 0);
  }

  lemma ExecuteRegister(plan: Plan, s: State, d: nat, c: nat)
    requires Exclusive(plan) && ControlInv(plan, s) && Enabled(plan, s, Execute(d))
    requires c < |s.cores| && RegisterInv(plan, s, c)
    ensures Shape(plan, ExecuteOp(plan, s, d)) && RegisterInv(plan, ExecuteOp(plan, s, d), c)
  {
    StepShape(plan, s, Execute(d));
    QueueMember(plan, s, d, 0);
    if c != d && IsRunning(s, c) && s.cores[c].worker.register.Some? {
      QueueMember(plan, s, c, 0);
      HeadsDisjoint(plan, s, d, c);
    }
    hide PushedCount, CoreInv, TaskInv, Exclusive;
  }

  /** All other steps leave a running head, its register and the memory alone. */
  lemma OtherStepRegister(plan: Plan, s: State, step: Step, c: nat)
    requires Shape(plan, s) && Enabled(plan, s, step) && !step.Execute?
    requires c < |s.cores| && RegisterInv(plan, s, c)
    requires s.cores[c].worker.Running? ==> s.cores[c].queue != []
    ensures Shape(plan, Next(plan, s, step)) && RegisterInv(plan, Next(plan, s, step), c)
  {
    StepShape(plan, s, step);
  }

  lemma StepRegister(plan: Plan, s: State, step: Step, c: nat)
    requires Exclusive(plan) && ControlInv(plan, s) && MemoryInv(plan, s) && Enabled(plan, s, step)
    requires c < |s.cores|
    ensures Shape(plan, Next(plan, s, step)) && RegisterInv(plan, Next(plan, s, step), c)
  {
    hide Shape, RegisterInv, LocInv, TaskInv, ExecuteOp;
    assert RegisterInv(plan, s, c);
    assert CoreInv(plan, s.cores[c], s.main, s.ready, c);
    if step.Execute? {
      ExecuteRegister(plan, s, step.core, c);
    } else {
      OtherStepRegister(plan, s, step, c);
    }
  }

  /** Modular arithmetic of one addition: v moves from the pending amount into memory. */
  lemma AddedToMemory(before: int, v: int, pending: int, total: int)
    requires Wrap(before + pending) == Wrap(total)
    ensures Wrap(before + v) == Wrap(Wrap(before + v))
    ensures Wrap(Wrap(before + v) + (pending - v)) == Wrap(total)
  {
    WrapAdd(before + v, pending - v);
    WrapAdd(before + v, 0);
  }

  /** The store of one operation moves its value from the pending amount into memory. */
  lemma StoreConserves(plan: Plan, mem: Memory, progress: seq<nat>, k: nat, l: Loc)
    requires Within(plan, progress) && k < |plan| && progress[k] < |plan[k].ops|
    requires Conserved(plan, mem, progress, l)
    ensures var op := plan[k].ops[progress[k]];
            Conserved(plan, mem[op.loc := Wrap(Load(mem, op.loc) + op.value)], progress[k := progress[k] + 1], l)
  {
    hide Wrap, Pending, Total;
    var op := plan[k].ops[progress[k]];
    PendingStep(plan, progress, l, |plan|, k);
    if op.loc == l {
      AddedToMemory(Load(mem, l), op.value, Pending(plan, progress, l, |plan|), Total(plan, l, |plan|));
    }
  }

  /** What one operation of task k may do to memory and progress. */
  predicate Stored(plan: Plan, s: State, t: State, k: nat)
    requires k < |plan| && k < |s.progress| && s.progress[k] < |plan[k].ops|
  {
    var op := plan[k].ops[s.progress[k]];
    && t.mem == s.mem[op.loc := Wrap(Load(s.mem, op.loc) + op.value)]
    && t.progress == s.progress[k := s.progress[k] + 1]
  }

  /** An Execute step either only loads, or stores one operation into the memory it sees. */
  lemma ExecuteEffect(plan: Plan, s: State, c: nat, t: State) returns (k: nat)
    requires Shape(plan, s) && Enabled(plan, s, Execute(c)) && t == ExecuteOp(plan, s, c)
    requires RegisterInv(plan, s, c)
    ensures Within(plan, s.progress) && k < |plan| && s.progress[k] < |plan[k].ops|
    ensures (t.mem == s.mem && t.progress == s.progress) || Stored(plan, s, t, k)
  {
    hide Wrap;
    k := s.cores[c].queue[0];
  }

  /** Only Execute touches the accumulators. */
  lemma WritesMemory(plan: Plan, s: State, step: Step)
    requires Shape(plan, s) && Enabled(plan, s, step)
    ensures if step.Execute? then Next(plan, s, step) == ExecuteOp(plan, s, step.core)
            else Next(plan, s, step).progress == s.progress && Next(plan, s, step).mem == s.mem
  {
  }

  lemma StepLocation(plan: Plan, s: State, step: Step, l: Loc)
    requires ControlInv(plan, s) && Enabled(plan, s, step) && MemoryInv(plan, s)
    ensures Shape(plan, Next(plan, s, step)) && LocInv(plan, Next(plan, s, step), l)
  {
    hide Next, ExecuteOp, CoreInv, TaskInv, PushedCount, Conserved, RegisterInv, Wrap;
    StepShape(plan, s, step);
    WritesMemory(plan, s, step);
    assert LocInv(plan, s, l);
    if step.Execute? {
      assert RegisterInv(plan, s, step.core);
      var k := ExecuteEffect(plan, s, step.core, Next(plan, s, step));
      StoreConserves(plan, s.mem, s.progress, k, l);
    }
  }

  ghost predicate Inv(plan: Plan, s: State) {
    ControlInv(plan, s) && MemoryInv(plan, s)
  }

  lemma InitialInv(plan: Plan, s: State)
    requires Initial(plan, s)
    ensures Inv(plan, s)
  {
    InitialControl(plan, s);
    forall l: Loc ensures LocInv(plan, s, l) {
      PendingAtStart(plan, s.progress, l, |plan|);
    }
  }

  lemma StepInv(plan: Plan, s: State, step: Step)
    requires Exclusive(plan) && Inv(plan, s) && Enabled(plan, s, step)
    ensures Inv(plan, Next(plan, s, step))
  {
    StepControl(plan, s, step);
    var t := Next(plan, s, step);
    forall c | 0 <= c < |t.cores| ensures RegisterInv(plan, t, c) {
      StepRegister(plan, s, step, c);
    }
    forall l: Loc ensures LocInv(plan, t, l) {
      StepLocation(plan, s, step, l);
    }
  }

  // ---------------------------------------------------------------------------------------
  // Runs

  /** The steps lead from s to t, each of them enabled when it is taken. */
  predicate IsRun(plan: Plan, s: State, steps: seq<Step>, t: State)
    decreases steps
  {
    if steps == [] then s == t
    else Shape(plan, s) && Enabled(plan, s, steps[0]) && IsRun(plan, Next(plan, s, steps[0]), steps[1..], t)
  }

  ghost predicate Reachable(plan: Plan, t: State) {
    exists s, steps :: Initial(plan, s) && IsRun(plan, s, steps, t)
  }

  lemma {:induction false} RunControl(plan: Plan, s: State, steps: seq<Step>, t: State)
    requires ControlInv(plan, s) && IsRun(plan, s, steps, t)
    ensures ControlInv(plan, t)
    decreases steps
  {
    if steps != [] {
      StepControl(plan, s, steps[0]);
      RunControl(plan, Next(plan, s, steps[0]), steps[1..], t);
    }
  }

  lemma {:induction false} RunInv(plan: Plan, s: State, steps: seq<Step>, t: State)
    requires Exclusive(plan) && Inv(plan, s) && IsRun(plan, s, steps, t)
    ensures Inv(plan, t)
    decreases steps
  {
    if steps != [] {
      StepInv(plan, s, steps[0]);
      RunInv(plan, Next(plan, s, steps[0]), steps[1..], t);
    }
  }

  lemma ReachableControl(plan: Plan, t: State)
    requires Reachable(plan, t)
    ensures ControlInv(plan, t)
  {
    var s, steps :| Initial(plan, s) && IsRun(plan, s, steps, t);
    InitialControl(plan, s);
    RunControl(plan, s, steps, t);
  }

  lemma ReachableInv(plan: Plan, t: State)
    requires Exclusive(plan) && Reachable(plan, t)
    ensures Inv(plan, t)
  {
    var s, steps :| Initial(plan, s) && IsRun(plan, s, steps, t);
    InitialInv(plan, s);
    RunInv(plan, s, steps, t);
  }

  lemma AllComplete(plan: Plan, t: State)
    requires ControlInv(plan, t) && Finished(plan, t)
    ensures forall k :: 0 <= k < |plan| ==> t.ready[k] && t.progress[k] == |plan[k].ops|
  {
    forall k | 0 <= k < |plan| ensures t.ready[k] && t.progress[k] == |plan[k].ops| {
      assert TaskInv(plan, t, k);
    }
  }

  /** No wakeup is lost: whenever a mutex is free and its queue is not empty, the worker is not
      waiting un-notified. */
  lemma NoLostWakeup(plan: Plan, t: State, c: nat)
    requires Reachable(plan, t) && c < |t.cores|
    requires t.cores[c].mutex == Free && t.cores[c].queue != []
    ensures !t.cores[c].worker.Waiting?
  {
    ReachableControl(plan, t);
    assert CoreInv(plan, t.cores[c], t.main, t.ready, c);
  }

  /** On one queue tasks run in push order: a task that has begun finds every earlier task of the
      same queue complete. */
  lemma RunsInPushOrder(plan: Plan, t: State, j: nat, k: nat)
    requires Reachable(plan, t) && j < k < |plan| && plan[j].core == plan[k].core
    requires Shape(plan, t) && (t.progress[k] > 0 || t.ready[k])
    ensures t.ready[j] && t.progress[j] == |plan[j].ops|
  {
    ReachableControl(plan, t);
    hide Reachable, Shape, MutexInv, WakeupInv, PushedCount, Assigned;
    var c := plan[j].core;
    var core := t.cores[c];
    var n := PushedCount(plan, t.main);
    assert CoreInv(plan, core, t.main, t.ready, c);
    assert TaskInv(plan, t, j) && TaskInv(plan, t, k);
    AssignedSorted(plan, c, n);
    var all := core.done + core.queue;
    assert all == Assigned(plan, c, n);
    var b := if k in core.done then (var i :| 0 <= i < |core.done| && core.done[i] == k; i) else |core.done|;
    assert all[b] == k;
    assert j in all;
    var a :| 0 <= a < |all| && all[a] == j;
    assert a < b;
    assert core.done[a] == j;
  }

  /** Every task is run exactly once: when the main thread has finished, all tasks are complete
      and each core has taken its tasks off the queue once, in push order; only the pop of the
      last one may still be outstanding. */
  lemma RunsExactlyOnce(plan: Plan, t: State, c: nat)
    requires Reachable(plan, t) && Finished(plan, t) && c < |t.cores|
    ensures Shape(plan, t)
    ensures forall k :: 0 <= k < |plan| ==> t.ready[k] && t.progress[k] == |plan[k].ops|
    ensures t.cores[c].done + t.cores[c].queue == Assigned(plan, c, |plan|)
    ensures |t.cores[c].queue| <= 1
  {
    ReachableControl(plan, t);
    AllComplete(plan, t);
    assert CoreInv(plan, t.cores[c], t.main, t.ready, c);
    OneLeft(plan, t, c);
  }

  lemma FinalLocation(plan: Plan, t: State, l: Loc)
    requires ControlInv(plan, t) && Finished(plan, t) && LocInv(plan, t, l)
    ensures Load(t.mem, l) == Wrap(Total(plan, l, |plan|))
  {
    AllComplete(plan, t);
    PendingAtEnd(plan, t.progress, l, |plan|);
  }

  /** Whatever the interleaving, when the main thread has finished every accumulator holds the sum
      of everything the tasks add to it, modulo 2^64. */
  lemma FinalMemory(plan: Plan, t: State, l: Loc)
    requires Exclusive(plan) && Reachable(plan, t) && Finished(plan, t)
    ensures Load(t.mem, l) == Wrap(Total(plan, l, |plan|))
  {
    ReachableInv(plan, t);
    FinalLocation(plan, t, l);
  }

  // ---------------------------------------------------------------------------------------
  // Progress

  lemma UsefulStep(plan: Plan, t: State) returns (step: Step)
    requires ControlInv(plan, t) && !Finished(plan, t)
    ensures Enabled(plan, t, step) && !step.SpuriousWakeup?
  {
    var k := t.main.task;
    var c := plan[k].core;
    var core := t.cores[c];
    assert CoreInv(plan, core, t.main, t.ready, c) && TaskInv(plan, t, k);
    if t.main.Pushing? && (t.main.stage != Locking || core.mutex.Free?) {
      step := match t.main.stage
        case Locking => MainLock case Holding => MainPush case Pushed => MainNotify case Notified => MainUnlock;
    } else if t.main.WaitingFor? && t.ready[k] {
      step := MainWait;
    } else if core.mutex.ByWorker? {
      step := match core.worker
        case CheckOuter => Outer(c)
        case CheckInner => Inner(c)
        case Running(_) =>
          if t.progress[core.queue[0]] < |plan[core.queue[0]].ops| then Execute(c) else Return(c)
        case _ => Pop(c);
    } else {
      AssignedSorted(plan, c, |plan|);
      assert k in core.done + core.queue;
      step := Acquire(c);
    }
  }

  /** While the main thread has not finished, some thread can take a step that is not a
      spurious wakeup: the round cannot deadlock. */
  lemma NoDeadlock(plan: Plan, t: State) returns (step: Step)
    requires Reachable(plan, t) && !Finished(plan, t)
    ensures Shape(plan, t) && Enabled(plan, t, step) && !step.SpuriousWakeup?
  {
    ReachableControl(plan, t);
    step := UsefulStep(plan, t);
  }

  function TaskWork(plan: Plan, s: State, k: nat): nat
    requires Shape(plan, s) && k < |plan|
  {
    if s.ready[k] then 0 else 2 * (|plan[k].ops| - s.progress[k]) + 3
  }

  function WorkerWork(core: Core): nat {
    match core.worker
    case Starting => 4
    case Woken => 4
    case Waiting => 0
    case CheckOuter => if core.queue == [] then 1 else 3
    case CheckInner => 2
    case Running(register) => if register.None? then 1 else 0
    case Popping => 3
    case PopPrevious => 3
  }

  function MainWork(plan: Plan, main: Main): int {
    match main
    case Pushing(k, stage) =>
      8 * (|plan| - k) - (match stage case Locking => 0 case Holding => 1 case Pushed => 2 case Notified => 7) + |plan|
    case WaitingFor(k) => |plan| - k
  }

  /** The work left: an upper bound on the number of steps other than spurious wakeups. */
  function Work(plan: Plan, s: State): int
    requires Shape(plan, s)
  {
    MainWork(plan, s.main)
    + Sum(seq(|s.cores|, c requires 0 <= c < |s.cores| => WorkerWork(s.cores[c])))
    + Sum(seq(|plan|, k requires 0 <= k < |plan| => TaskWork(plan, s, k)))
  }

  lemma WorkNonNegative(plan: Plan, s: State)
    requires Shape(plan, s)
    ensures 0 <= Work(plan, s)
  {
    var ws := seq(|s.cores|, c requires 0 <= c < |s.cores| => WorkerWork(s.cores[c]));
    var ts := seq(|plan|, k requires 0 <= k < |plan| => TaskWork(plan, s, k));
    SumNonNegative(ws);
    SumNonNegative(ts);
  }

  /** Changing one core and one task changes the sums by the differences. */
  lemma WorkDifference(plan: Plan, s: State, t: State, c: nat, k: nat)
    requires Shape(plan, s) && Shape(plan, t) && |t.cores| == |s.cores| && c < |s.cores| && k < |plan|
    requires forall d :: 0 <= d < |s.cores| && d != c ==> t.cores[d] == s.cores[d]
    requires forall j :: 0 <= j < |plan| && j != k ==> t.progress[j] == s.progress[j] && t.ready[j] == s.ready[j]
    ensures Work(plan, t) - Work(plan, s) ==
            MainWork(plan, t.main) - MainWork(plan, s.main)
            + WorkerWork(t.cores[c]) - WorkerWork(s.cores[c])
            + TaskWork(plan, t, k) - TaskWork(plan, s, k)
  {
    var ws := seq(|s.cores|, c requires 0 <= c < |s.cores| => WorkerWork(s.cores[c]));
    var ts := seq(|plan|, k requires 0 <= k < |plan| => TaskWork(plan, s, k));
    SumUpdate(ws, c, WorkerWork(t.cores[c]));
    SumUpdate(ts, k, TaskWork(plan, t, k));
    assert ws[c := WorkerWork(t.cores[c])] ==
           seq(|t.cores|, c requires 0 <= c < |t.cores| => WorkerWork(t.cores[c]));
    assert ts[k := TaskWork(plan, t, k)] == seq(|plan|, k requires 0 <= k < |plan| => TaskWork(plan, t, k));
  }

  lemma MainStepWork(plan: Plan, s: State, step: Step)
    requires ControlInv(plan, s) && Enabled(plan, s, step) && plan != [] && !IsWorkerStep(step)
    ensures var t := Next(plan, s, step); Shape(plan, t) && Work(plan, t) <= Work(plan, s) - 1
  {
    StepShape(plan, s, step);
    var t := Next(plan, s, step);
    var k := s.main.task;
    var c := plan[k].core;
    assert MutexInv(plan, s.cores[c], s.main, c) by {
      assert CoreInv(plan, s.cores[c], s.main, s.ready, c);
    }
    hide Work, CoreInv;
    WorkDifference(plan, s, t, c, k);
  }

  lemma WorkerStepFrame(plan: Plan, s: State, step: Step, k: nat)
    requires Shape(plan, s) && Enabled(plan, s, step) && IsWorkerStep(step)
    requires s.cores[step.core].queue != [] ==> k == s.cores[step.core].queue[0]
    ensures var t := Next(plan, s, step);
            && |t.cores| == |s.cores| && t.main == s.main && |t.progress| == |t.ready| == |plan|
            && (forall d :: 0 <= d < |s.cores| && d != step.core ==> t.cores[d] == s.cores[d])
            && (forall j :: 0 <= j < |plan| && j != k ==> t.progress[j] == s.progress[j] && t.ready[j] == s.ready[j])
  {
  }

  lemma WorkerStepDelta(plan: Plan, s: State, step: Step, k: nat)
    requires Shape(plan, s) && Enabled(plan, s, step) && IsWorkerStep(step) && k < |plan|
    requires s.cores[step.core].queue != [] ==> k == s.cores[step.core].queue[0] && plan[k].core == step.core
    requires ReadyInv(s.cores[step.core], s.ready) && TaskInv(plan, s, k)
    ensures var t := Next(plan, s, step);
            Shape(plan, t) &&
            WorkerWork(t.cores[step.core]) - WorkerWork(s.cores[step.core])
            + TaskWork(plan, t, k) - TaskWork(plan, s, k)
            <= if step.SpuriousWakeup? then 4 else -1
  {
    StepShape(plan, s, step);
    match step
    case Acquire(_) =>
    case SpuriousWakeup(_) =>
    case Outer(_) =>
    case Inner(_) =>
    case Execute(_) =>
    case Return(_) =>
    case Pop(_) =>
  }

  lemma WorkerStepWork(plan: Plan, s: State, step: Step)
    requires ControlInv(plan, s) && Enabled(plan, s, step) && plan != [] && IsWorkerStep(step)
    ensures var t := Next(plan, s, step);
            Shape(plan, t) && Work(plan, t) <= Work(plan, s) + (if step.SpuriousWakeup? then 4 else -1)
  {
    var c := step.core;
    var k := if s.cores[c].queue != [] then s.cores[c].queue[0] else 0;
    if s.cores[c].queue != [] {
      QueueMember(plan, s, c, 0);
    }
    assert TaskInv(plan, s, k);
    assert CoreInv(plan, s.cores[c], s.main, s.ready, c);
    WorkerStepFrame(plan, s, step, k);
    WorkerStepDelta(plan, s, step, k);
    hide Work, WorkerWork, TaskWork, Next;
    WorkDifference(plan, s, Next(plan, s, step), c, k);
  }

  /** Every step reduces the work, except that a spurious wakeup adds four. */
  lemma StepWork(plan: Plan, s: State, step: Step)
    requires ControlInv(plan, s) && Enabled(plan, s, step) && plan != []
    ensures var t := Next(plan, s, step);
            Shape(plan, t) && Work(plan, t) <= Work(plan, s) + (if step.SpuriousWakeup? then 4 else -1)
  {
    if IsWorkerStep(step) {
      WorkerStepWork(plan, s, step);
    } else {
      MainStepWork(plan, s, step);
    }
  }

  function SpuriousCount(steps: seq<Step>): nat {
    if steps == [] then 0 else (if steps[0].SpuriousWakeup? then 1 else 0) + SpuriousCount(steps[1..])
  }

  /** A run of a round is bounded: its length is at most the initial work plus five for every
      spurious wakeup. With NoDeadlock, getAllCounterStates returns in every run with finitely
      many spurious wakeups, under any scheduling. */
  lemma {:induction false} BoundedRun(plan: Plan, s: State, steps: seq<Step>, t: State)
    requires ControlInv(plan, s) && IsRun(plan, s, steps, t) && plan != []
    ensures |steps| <= Work(plan, s) + 5 * SpuriousCount(steps)
    decreases steps
  {
    if steps == [] {
      WorkNonNegative(plan, s);
    } else {
      StepControl(plan, s, steps[0]);
      StepWork(plan, s, steps[0]);
      BoundedRun(plan, Next(plan, s, steps[0]), steps[1..], t);
    }
  }

  /** From every state that satisfies the invariant, some steps lead to a finished one. */
  lemma {:induction false} CanFinish(plan: Plan, s: State) returns (steps: seq<Step>, t: State)
    requires ControlInv(plan, s) && (plan == [] ==> Finished(plan, s))
    ensures IsRun(plan, s, steps, t) && Finished(plan, t)
    decreases Work(plan, s)
  {
    WorkNonNegative(plan, s);
    if Finished(plan, s) {
      steps, t := [], s;
    } else {
      var step := UsefulStep(plan, s);
      StepControl(plan, s, step);
      StepWork(plan, s, step);
      hide Next, Work, ControlInv;
      var rest;
      rest, t := CanFinish(plan, Next(plan, s, step));
      steps := [step] + rest;
      assert steps[1..] == rest;
    }
  }

  lemma {:induction false} RunAppend(plan: Plan, s: State, first: seq<Step>, mid: State, second: seq<Step>, t: State)
    requires IsRun(plan, s, first, mid) && IsRun(plan, mid, second, t)
    ensures IsRun(plan, s, first + second, t)
    decreases first
  {
    hide Next, Shape;
    if first == [] {
      assert first + second == second;
    } else {
      RunAppend(plan, Next(plan, s, first[0]), first[1..], mid, second, t);
      assert (first + second)[1..] == first[1..] + second;
    }
  }

  /** getAllCounterStates can always still return: from every reachable state a finished one can be
      reached. */
  lemma FinishReachable(plan: Plan, t: State) returns (end: State)
    requires Reachable(plan, t) && plan != []
    ensures Reachable(plan, end) && Finished(plan, end)
    ensures exists steps :: IsRun(plan, t, steps, end)
  {
    ReachableControl(plan, t);
    var s, first :| Initial(plan, s) && IsRun(plan, s, first, t);
    var second;
    second, end := CanFinish(plan, t);
    RunAppend(plan, s, first, t, second, end);
  }

  // ---------------------------------------------------------------------------------------
  // Repeated rounds

  /** When a round has finished, a worker whose queue is not empty is about to pop the last task; no
      worker is running one. */
  lemma LeftoverPop(plan: Plan, t: State, c: nat)
    requires ControlInv(plan, t) && Finished(plan, t) && c < |t.cores|
    ensures t.cores[c].queue != [] <==> t.cores[c].worker.Popping?
    ensures !t.cores[c].worker.Running?
  {
    assert CoreInv(plan, t.cores[c], t.main, t.ready, c);
    if t.cores[c].queue != [] {
      QueueMember(plan, t, c, 0);
      AllComplete(plan, t);
      assert TaskInv(plan, t, t.cores[c].queue[0]);
    }
  }

  /** A core as the next round finds it: the pop that is still outstanding is one of an earlier round. */
  function Leftover(core: Core): Core {
    Core([], core.mutex, if core.worker.Popping? then PopPrevious else core.worker, [])
  }

  /** The state in which the next call of getAllCounterStates begins: fresh accumulators and futures, and
      the workers wherever the previous round left them. */
  function NextRound(t: State, plan: Plan): State {
    State(seq(|t.cores|, c requires 0 <= c < |t.cores| => Leftover(t.cores[c])),
          if plan == [] then WaitingFor(0) else Pushing(0, Locking),
          map[], seq(|plan|, k => 0), seq(|plan|, k => false))
  }

  /** Rounds chain: after any finished round the next one begins in an initial state, so that all results
      hold again, for as many rounds as are run. */
  lemma RoundsChain(plan: Plan, t: State, next: Plan)
    requires Reachable(plan, t) && Finished(plan, t)
    requires forall k :: 0 <= k < |next| ==> next[k].core < |t.cores|
    ensures Initial(next, NextRound(t, next))
  {
    ReachableControl(plan, t);
    forall c | 0 <= c < |t.cores|
      ensures var core := Leftover(t.cores[c]);
              && !core.worker.Running? && !core.worker.Popping?
              && core.mutex == (if HoldsMutex(core.worker) then ByWorker else Free)
    {
      LeftoverPop(plan, t, c);
      assert CoreInv(plan, t.cores[c], t.main, t.ready, c);
    }
  }

  /** What the workers do between two rounds may as well be counted to the next one: a step of a finished
      round is the same step of the next round's start. */
  lemma StepsBetweenRounds(plan: Plan, t: State, next: Plan, step: Step)
    requires ControlInv(plan, t) && Finished(plan, t) && Enabled(plan, t, step)
    requires Shape(next, NextRound(t, next))
    ensures IsWorkerStep(step) && Finished(plan, Next(plan, t, step))
    ensures Enabled(next, NextRound(t, next), step)
    ensures NextRound(Next(plan, t, step), next) == Next(next, NextRound(t, next), step)
  {
    var c := step.core;
    LeftoverPop(plan, t, c);
    assert CoreInv(plan, t.cores[c], t.main, t.ready, c);
    if step.Pop? && t.cores[c].worker.Popping? {
      OneLeft(plan, t, c);
    }
    assert NextRound(Next(plan, t, step), next).cores == Next(next, NextRound(t, next), step).cores;
  }

  lemma OneLeft(plan: Plan, t: State, c: nat)
    requires ControlInv(plan, t) && Finished(plan, t) && c < |t.cores|
    ensures |t.cores[c].queue| <= 1
  {
    AllComplete(plan, t);
    assert forall i :: 0 <= i < |t.cores[c].queue| ==> TaskInv(plan, t, t.cores[c].queue[i]);
    if |t.cores[c].queue| > 1 {
      QueueMember(plan, t, c, 1);
      QueueSorted(plan, t, c);
    }
  }
}
