/** PCM::getInstance: double-checked creation of one object by any number of threads, under
    sequential consistency. A thread may call it again after it returned. */
module Instance {
  import opened Options

  /** Where a thread is: before the lock-free read; waiting for the mutex; holding it before the second
      read; running `new PCM()`; about to store the new object; about to return, still holding the
      mutex; or returned. */
  datatype Pc =
    | LockFreeRead | WantLock | LockedRead | Constructing
    | Storing(built: nat) | Unlocking(found: nat) | Returned(obj: nat)

  /** Objects are numbered in the order of their construction; `results` are all values returned so far. */
  datatype State = State(instance: Option<nat>, mutex: Option<nat>, constructed: nat, pcs: seq<Pc>, results: seq<nat>)

  predicate Initial(s: State) {
    s.instance == None && s.mutex == None && s.constructed == 0 && s.results == [] &&
    forall t :: 0 <= t < |s.pcs| ==> s.pcs[t] == LockFreeRead
  }

  predicate Enabled(s: State, t: nat) {
    t < |s.pcs| && (s.pcs[t].WantLock? ==> s.mutex == None)
  }

  function At(s: State, t: nat, pc: Pc): State
    requires t < |s.pcs|
  {
    s.(pcs := s.pcs[t := pc])
  }

  function Return(s: State, t: nat, obj: nat): State
    requires t < |s.pcs|
  {
    At(s, t, Returned(obj)).(results := s.results + [obj])
  }

  /** One atomic step of thread t. */
  function Step(s: State, t: nat): State
    requires Enabled(s, t)
  {
    match s.pcs[t]
    case LockFreeRead => if s.instance.Some? then Return(s, t, s.instance.value) else At(s, t, WantLock)
    case WantLock => At(s, t, LockedRead).(mutex := Some(t))
    case LockedRead => At(s, t, if s.instance.Some? then Unlocking(s.instance.value) else Constructing)
    case Constructing => At(s, t, Storing(s.constructed)).(constructed := s.constructed + 1)
    case Storing(built) => At(s, t, Unlocking(built)).(instance := Some(built))
    case Unlocking(found) => Return(s, t, found).(mutex := None)
    case Returned(_) => At(s, t, LockFreeRead)
  }

  predicate IsRun(run: seq<State>, schedule: seq<nat>) {
    && |run| == |schedule| + 1
    && Initial(run[0])
    && forall i :: 0 <= i < |schedule| ==> Enabled(run[i], schedule[i]) && run[i + 1] == Step(run[i], schedule[i])
  }

  predicate Critical(pc: Pc) {
    pc.LockedRead? || pc.Constructing? || pc.Storing? || pc.Unlocking?
  }

  predicate ThreadOk(s: State, t: nat)
    requires t < |s.pcs|
  {
    && (Critical(s.pcs[t]) <==> s.mutex == Some(t))
    && match s.pcs[t]
       case Constructing => s.constructed == 0
       case Storing(built) => built == 0 && s.instance == None && s.constructed == 1
       case Unlocking(found) => s.instance == Some(found)
       case Returned(obj) => s.instance == Some(obj)
       case _ => true
  }

  /** An object that is not yet published is about to be stored by the thread that holds the mutex. */
  predicate Pending(s: State) {
    s.mutex.Some? && s.mutex.value < |s.pcs| && s.pcs[s.mutex.value].Storing?
  }

  predicate Inv(s: State) {
    && (s.instance.Some? ==> s.instance.value == 0 && s.constructed == 1)
    && (s.instance.None? ==> s.results == [] && s.constructed == if Pending(s) then 1 else 0)
    && (forall i :: 0 <= i < |s.results| ==> s.results[i] == 0)
    && (s.mutex.Some? ==> s.mutex.value < |s.pcs|)
    && (forall t :: 0 <= t < |s.pcs| ==> ThreadOk(s, t))
  }

  lemma StepKeepsInv(s: State, t: nat)
    requires Inv(s) && Enabled(s, t)
    ensures Inv(Step(s, t))
  {
    var n := Step(s, t);
    assert ThreadOk(s, t);
    forall u | 0 <= u < |n.pcs| ensures ThreadOk(n, u) {
      assert ThreadOk(s, u);
    }
  }

  lemma {:induction false} RunKeepsInv(run: seq<State>, schedule: seq<nat>, i: nat)
    requires IsRun(run, schedule) && i < |run|
    ensures Inv(run[i]) && |run[i].pcs| == |run[0].pcs|
  {
    if i > 0 {
      RunKeepsInv(run, schedule, i - 1);
      assert run[i - 1 + 1] == Step(run[i - 1], schedule[i - 1]);
      StepKeepsInv(run[i - 1], schedule[i - 1]);
    }
  }

  /** For any number of threads, calls and any interleaving: at most one object is ever constructed, and
      every call that returned, whichever path it took, returned that object after it was stored. */
  lemma OneInstance(run: seq<State>, schedule: seq<nat>, i: nat)
    requires IsRun(run, schedule) && i < |run|
    ensures run[i].constructed <= 1
    ensures forall j, k :: 0 <= j < k < |run[i].results| ==> run[i].results[j] == run[i].results[k]
    ensures |run[i].results| > 0 ==> run[i].constructed == 1 && run[i].instance == Some(run[i].results[0])
  {
    RunKeepsInv(run, schedule, i);
  }

  /** Once published, the pointer never changes. */
  lemma {:induction false} InstanceStable(run: seq<State>, schedule: seq<nat>, i: nat, k: nat)
    requires IsRun(run, schedule) && i <= k < |run| && run[i].instance.Some?
    ensures run[k].instance == run[i].instance
  {
    if i < k {
      InstanceStable(run, schedule, i, k - 1);
      RunKeepsInv(run, schedule, k - 1);
      assert run[k - 1 + 1] == Step(run[k - 1], schedule[k - 1]);
      assert ThreadOk(run[k - 1], schedule[k - 1]);
    }
  }

  /** The steps a thread that holds the mutex still needs to give it up. */
  function Remaining(pc: Pc): nat {
    match pc
    case LockedRead => 4
    case Constructing => 3
    case Storing(_) => 2
    case Unlocking(_) => 1
    case _ => 0
  }

  /** A thread is only ever blocked by the holder of the mutex, which can step and is at most four of its
      own steps from releasing it, whatever the others do in between. */
  lemma NoDeadlock(run: seq<State>, schedule: seq<nat>, i: nat, t: nat)
    requires IsRun(run, schedule) && i < |run| && t < |run[0].pcs|
    ensures var s := run[i];
            && |s.pcs| == |run[0].pcs|
            && (!Enabled(s, t) ==>
                  && s.mutex.Some? && s.mutex.value != t && Enabled(s, s.mutex.value)
                  && 1 <= Remaining(s.pcs[s.mutex.value]) <= 4)
    ensures i < |schedule| && run[i].mutex.Some? ==>
              var holder := run[i].mutex.value;
              && holder < |run[i].pcs| && holder < |run[i + 1].pcs|
              && (if schedule[i] == holder then Remaining(run[i + 1].pcs[holder]) < Remaining(run[i].pcs[holder])
                  else run[i + 1].pcs[holder] == run[i].pcs[holder])
              && (run[i + 1].mutex == None <==> Remaining(run[i + 1].pcs[holder]) == 0)
  {
    RunKeepsInv(run, schedule, i);
    var s := run[i];
    assert ThreadOk(s, t);
    if s.mutex.Some? {
      assert ThreadOk(s, s.mutex.value);
      if i < |schedule| {
        RunKeepsInv(run, schedule, i + 1);
        assert ThreadOk(run[i + 1], s.mutex.value);
        assert run[i + 1] == Step(s, schedule[i]);
      }
    }
  }
}
