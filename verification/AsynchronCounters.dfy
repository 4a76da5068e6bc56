/** AsynchronCounterState: a writer thread that refreshes two generations of samples under a mutex, and
    reader threads that take pairs of them, with any interleaving of their steps. */
module AsynchronCounters {
  import opened Sums

  datatype Owner = Free | Writer | Reader(id: nat)

  /** The writer sleeps, is about to move one unit's second sample to its first, is about to sample that
      unit, or is about to unlock. */
  datatype WriterPc = Sleeping | Moving(unit: nat) | Sampling(unit: nat) | Unlocking

  datatype ReaderPc =
    | Outside | Locked(unit: nat) | GotFirst(unit: nat, first: int) | GotBoth(unit: nat, first: int, second: int)

  /** What a getter returned, and the number of rounds that had been published then. */
  datatype Result = Result(unit: nat, first: int, second: int, rounds: nat)

  datatype Event = WriterMoves(sample: int) | ReaderMoves(id: nat, unit: nat)

  /** The counters of a default-constructed SystemCounterState. */
  const DEFAULT_SAMPLE := 0

  /** A reader is in its critical section exactly while it owns the mutex, and what it has read so far
      comes from the last two published rounds. */
  predicate ReaderOk(id: nat, pc: ReaderPc, owner: Owner, log: seq<seq<int>>, units: nat)
    requires |log| >= 2 && |log[|log| - 1]| == |log[|log| - 2]| == units
  {
    var k := |log|;
    && (pc.Outside? <==> owner != Reader(id))
    && (!pc.Outside? ==> pc.unit < units)
    && (pc.GotFirst? || pc.GotBoth? ==> pc.first == log[k - 2][pc.unit])
    && (pc.GotBoth? ==> pc.second == log[k - 1][pc.unit])
  }

  /** A pair of one unit's samples of two successive rounds. */
  predicate Consecutive(r: Result, log: seq<seq<int>>) {
    && 2 <= r.rounds <= |log| && r.unit < |log[r.rounds - 1]| && r.unit < |log[r.rounds - 2]|
    && r.first == log[r.rounds - 2][r.unit] && r.second == log[r.rounds - 1][r.unit]
  }

  /** The constructor's loop: each unit is sampled for the first generation, then for the second. */
  method SampleTwice(once: seq<int>, again: seq<int>) returns (states1: array<int>, states2: array<int>)
    requires |once| == |again|
    ensures fresh(states1) && fresh(states2) && states1 != states2
    ensures states1[..] == once && states2[..] == again
  {
    states1, states2 := new int[|once|], new int[|once|];
    for i := 0 to |once|
      invariant states1[..i] == once[..i] && states2[..i] == again[..i]
    {
      states1[i] := once[i];
      states2[i] := again[i];
    }
  }

  class AsynchronCounterState {
    const cores: nat
    const sockets: nat
    const cstates1: array<int>
    const cstates2: array<int>
    const skstates1: array<int>
    const skstates2: array<int>
    var sstate1: int
    var sstate2: int
    var counterMutex: Owner
    var writer: WriterPc
    var readers: seq<ReaderPc>
    /** All published rounds, the samples of the round under way, and what readers returned. */
    ghost var log: seq<seq<int>>
    ghost var current: seq<int>
    ghost var results: seq<Result>

    /** Units are the cores, then the sockets, then the system. */
    ghost function Units(): nat {
      cores + sockets + 1
    }

    ghost predicate Shape() {
      && cstates1.Length == cstates2.Length == cores && skstates1.Length == skstates2.Length == sockets
      && cstates1 != cstates2 && cstates1 != skstates1 && cstates1 != skstates2
      && cstates2 != skstates1 && cstates2 != skstates2 && skstates1 != skstates2
    }

    function First(u: nat): int
      requires Shape()
      reads `sstate1, cstates1, skstates1
    {
      if u < cores then cstates1[u] else if u < cores + sockets then skstates1[u - cores] else sstate1
    }

    function Second(u: nat): int
      requires Shape()
      reads `sstate2, cstates2, skstates2
    {
      if u < cores then cstates2[u] else if u < cores + sockets then skstates2[u - cores] else sstate2
    }

    /** The number of units the writer has finished in the round under way, and whether it has moved the
        next one. */
    ghost function Done(): nat
      reads `writer
    {
      match writer
      case Sleeping => 0
      case Moving(u) => u
      case Sampling(u) => u
      case Unlocking => Units()
    }

    ghost predicate Generations()
      requires Shape() && |log| >= 2 && |log[|log| - 1]| == |log[|log| - 2]| == Units()
      requires |current| == Done() <= Units()
      reads `sstate1, `sstate2, `writer, `log, `current, cstates1, cstates2, skstates1, skstates2
    {
      var k := |log|;
      && (forall u :: 0 <= u < Done() ==> First(u) == log[k - 1][u] && Second(u) == current[u])
      && (forall u :: Done() <= u < Units() ==> Second(u) == log[k - 1][u])
      && (forall u :: Done() <= u < Units() ==>
            First(u) == if writer == Sampling(u) then log[k - 1][u] else log[k - 2][u])
    }

    ghost predicate Valid()
      reads this, cstates1, cstates2, skstates1, skstates2
    {
      && Shape()
      && |log| >= 2 && (forall k :: 0 <= k < |log| ==> |log[k]| == Units())
      && (writer == Sleeping <==> counterMutex != Writer)
      && (writer.Moving? || writer.Sampling? ==> writer.unit < Units())
      && |current| == Done()
      && Generations()
      && (counterMutex.Reader? ==> counterMutex.id < |readers|)
      && (forall id :: 0 <= id < |readers| ==> ReaderOk(id, readers[id], counterMutex, log, Units()))
      && (forall i :: 0 <= i < |results| ==> Consecutive(results[i], log))
    }

    /** Every core and socket is sampled twice; the system pair stays default-constructed. */
    constructor (cores: nat, sockets: nat, numReaders: nat, once: seq<int>, again: seq<int>)
      requires |once| == |again| == cores + sockets
      ensures Valid() && this.cores == cores && this.sockets == sockets
      ensures counterMutex == Free && results == [] && |readers| == numReaders
      ensures log == [once + [DEFAULT_SAMPLE], again + [DEFAULT_SAMPLE]]
      ensures cstates1[..] == once[..cores] && cstates2[..] == again[..cores]
      ensures skstates1[..] == once[cores..] && skstates2[..] == again[cores..]
      ensures fresh(cstates1) && fresh(cstates2) && fresh(skstates1) && fresh(skstates2)
    {
      this.cores, this.sockets := cores, sockets;
      var c1, c2 := SampleTwice(once[..cores], again[..cores]);
      var s1, s2 := SampleTwice(once[cores..], again[cores..]);
      cstates1, cstates2, skstates1, skstates2 := c1, c2, s1, s2;
      sstate1, sstate2 := DEFAULT_SAMPLE, DEFAULT_SAMPLE;
      counterMutex, writer, readers := Free, Sleeping, seq(numReaders, i => Outside);
      log, current, results := [once + [DEFAULT_SAMPLE], again + [DEFAULT_SAMPLE]], [], [];
    }

    method SetFirst(u: nat, value: int)
      requires Shape() && u < Units()
      modifies this`sstate1, cstates1, skstates1
      ensures First(u) == value && forall v :: 0 <= v < Units() && v != u ==> First(v) == old(First(v))
    {
      if u < cores {
        cstates1[u] := value;
      } else if u < cores + sockets {
        skstates1[u - cores] := value;
      } else {
        sstate1 := value;
      }
    }

    method SetSecond(u: nat, value: int)
      requires Shape() && u < Units()
      modifies this`sstate2, cstates2, skstates2
      ensures Second(u) == value && forall v :: 0 <= v < Units() && v != u ==> Second(v) == old(Second(v))
    {
      if u < cores {
        cstates2[u] := value;
      } else if u < cores + sockets {
        skstates2[u - cores] := value;
      } else {
        sstate2 := value;
      }
    }

    /** One step of UpdateCounters; `sample` is what the counters of the unit read now. */
    method WriterStep(sample: int)
      requires Valid()
      modifies this, cstates1, cstates2, skstates1, skstates2
      ensures Valid()
      ensures readers == old(readers) && results == old(results)
      ensures old(writer) == Unlocking ==>
                log == old(log) + [old(current)] && current == [] && writer == Sleeping && counterMutex == Free
      ensures old(writer) != Unlocking ==> log == old(log)
      ensures old(writer) == Sleeping ==>
                if old(counterMutex) == Free then writer == Moving(0) && counterMutex == Writer && current == []
                else writer == Sleeping && counterMutex == old(counterMutex)
      ensures old(writer).Moving? ==> writer == Sampling(old(writer).unit) && current == old(current)
      ensures old(writer).Sampling? ==>
                && current == old(current) + [sample]
                && writer == if old(writer).unit + 1 == Units() then Unlocking else Moving(old(writer).unit + 1)
    {
      match writer
      case Sleeping =>
        if counterMutex == Free {
          AllOutside();
          counterMutex, writer := Writer, Moving(0);
        }
      case Moving(u) =>
        MoveStep(u);
      case Sampling(u) =>
        SampleStep(u, sample);
      case Unlocking =>
        Publish();
    }

    method MoveStep(u: nat)
      requires Valid() && writer == Moving(u)
      modifies `sstate1, `writer, cstates1, skstates1
      ensures Valid() && writer == Sampling(u)
    {
      SetFirst(u, Second(u));
      writer := Sampling(u);
    }

    method SampleStep(u: nat, sample: int)
      requires Valid() && writer == Sampling(u)
      modifies `sstate2, `writer, `current, cstates2, skstates2
      ensures Valid() && current == old(current) + [sample]
      ensures writer == if u + 1 == Units() then Unlocking else Moving(u + 1)
    {
      SetSecond(u, sample);
      current := current + [sample];
      writer := if u == cores + sockets then Unlocking else Moving(u + 1);
    }

    method Publish()
      requires Valid() && writer == Unlocking
      modifies this
      ensures Valid() && writer == Sleeping && counterMutex == Free && current == []
      ensures log == old(log) + [old(current)] && readers == old(readers) && results == old(results)
    {
      AllOutside();
      log, current := log + [current], [];
      counterMutex, writer := Free, Sleeping;
    }

    /** While no reader owns the mutex, every reader is outside its critical section. */
    lemma AllOutside()
      requires Valid() && !counterMutex.Reader?
      ensures forall id :: 0 <= id < |readers| ==> readers[id].Outside?
    {
      forall id | 0 <= id < |readers| ensures readers[id].Outside? {
        assert ReaderOk(id, readers[id], counterMutex, log, Units());
      }
    }

    /** One step of a getter: lock, read the first sample, read the second, unlock and return. */
    method ReaderStep(id: nat, unit: nat)
      requires Valid() && id < |readers| && unit < Units()
      modifies this
      ensures Valid() && log == old(log) && writer == old(writer) && current == old(current)
      ensures |readers| == |old(readers)|
      ensures old(readers)[id].GotBoth? ==>
                var pc := old(readers)[id];
                results == old(results) + [Result(pc.unit, pc.first, pc.second, |log|)] && counterMutex == Free
      ensures !old(readers)[id].GotBoth? ==> results == old(results)
      ensures old(readers)[id].Outside? ==>
                if old(counterMutex) == Free
                then readers == old(readers)[id := Locked(unit)] && counterMutex == Reader(id)
                else readers == old(readers) && counterMutex == old(counterMutex)
      ensures old(readers)[id].Locked? ==> readers[id].GotFirst? && readers[id].unit == old(readers)[id].unit
      ensures old(readers)[id].GotFirst? ==> readers[id].GotBoth? && readers[id].unit == old(readers)[id].unit
    {
      assert ReaderOk(id, readers[id], counterMutex, log, Units());
      match readers[id]
      case Outside =>
        if counterMutex == Free {
          AllOutside();
          counterMutex, readers := Reader(id), readers[id := Locked(unit)];
        }
      case Locked(u) =>
        readers := readers[id := GotFirst(u, First(u))];
      case GotFirst(u, first) =>
        readers := readers[id := GotBoth(u, first, Second(u))];
      case GotBoth(u, first, second) =>
        results := results + [Result(u, first, second, |log|)];
        counterMutex, readers := Free, readers[id := Outside];
    }

    /** An uncontended getter returns the pair of the last two published rounds. */
    method Get(id: nat, unit: nat) returns (first: int, second: int)
      requires Valid() && counterMutex == Free && id < |readers| && unit < Units()
      modifies this
      ensures Valid() && counterMutex == Free && log == old(log)
      ensures first == log[|log| - 2][unit] && second == log[|log| - 1][unit]
    {
      assert ReaderOk(id, readers[id], counterMutex, log, Units());
      ReaderStep(id, unit);
      ReaderStep(id, unit);
      ReaderStep(id, unit);
      first, second := readers[id].first, readers[id].second;
      assert ReaderOk(id, readers[id], counterMutex, log, Units());
      ReaderStep(id, unit);
    }

    /** Any interleaving of the threads, with any values read from the hardware: readers never mix
        generations, and published rounds never change. */
    method Run(schedule: seq<Event>)
      requires Valid()
      requires forall i :: 0 <= i < |schedule| && schedule[i].ReaderMoves? ==>
                 schedule[i].id < |readers| && schedule[i].unit < Units()
      modifies this, cstates1, cstates2, skstates1, skstates2
      ensures Valid() && old(log) <= log && old(results) <= results
      ensures counterMutex == Free ==>
                forall u :: 0 <= u < Units() ==> First(u) == log[|log| - 2][u] && Second(u) == log[|log| - 1][u]
    {
      for i := 0 to |schedule|
        invariant Valid() && old(log) <= log && old(results) <= results && |readers| == |old(readers)|
      {
        match schedule[i]
        case WriterMoves(sample) => WriterStep(sample);
        case ReaderMoves(id, unit) => ReaderStep(id, unit);
      }
    }

    /** A round that runs without contention publishes exactly the samples it took. */
    method UpdateCounters(samples: seq<int>)
      requires Valid() && counterMutex == Free && |samples| == Units()
      modifies this, cstates1, cstates2, skstates1, skstates2
      ensures Valid() && counterMutex == Free
      ensures log == old(log) + [samples] && results == old(results)
      ensures forall u :: 0 <= u < Units() ==> First(u) == log[|log| - 2][u] && Second(u) == samples[u]
      ensures cstates2[..] == samples[..cores] && skstates2[..] == samples[cores..cores + sockets]
      ensures sstate2 == samples[cores + sockets]
    {
      WriterStep(0);
      for u := 0 to |samples|
        invariant Valid() && log == old(log) && results == old(results) && current == samples[..u]
        invariant writer == if u == |samples| then Unlocking else Moving(u)
      {
        WriterStep(0);
        WriterStep(samples[u]);
      }
      assert samples[..|samples|] == samples;
      WriterStep(0);
      assert forall u :: 0 <= u < cores ==> cstates2[u] == Second(u);
      assert forall u :: 0 <= u < sockets ==> skstates2[u] == Second(cores + u);
      assert sstate2 == Second(cores + sockets);
    }
  }

  /** Deltas telescope: adding the differences that readers get in successive rounds gives the
      difference between the last and the first sample, modulo 2^64. */
  function Deltas(log: seq<seq<int>>, u: nat, lo: nat, hi: nat): seq<int>
    requires lo <= hi < |log| && forall k :: 0 <= k < |log| ==> u < |log[k]|
  {
    seq(hi - lo, k requires 0 <= k < hi - lo => Wrap(log[lo + k + 1][u] - log[lo + k][u]))
  }

  lemma {:induction false} DeltasTelescope(log: seq<seq<int>>, u: nat, lo: nat, hi: nat)
    requires lo <= hi < |log| && forall k :: 0 <= k < |log| ==> u < |log[k]|
    ensures Wrap(Sum(Deltas(log, u, lo, hi))) == Wrap(log[hi][u] - log[lo][u])
    decreases hi
  {
    if lo < hi {
      DeltasTelescope(log, u, lo, hi - 1);
      var d := Deltas(log, u, lo, hi);
      assert d[..|d| - 1] == Deltas(log, u, lo, hi - 1);
      AddDelta(Sum(d[..|d| - 1]), log[lo][u], log[hi - 1][u], log[hi][u]);
    }
  }

  lemma AddDelta(sum: int, first: int, middle: int, last: int)
    requires Wrap(sum) == Wrap(middle - first)
    ensures Wrap(sum + Wrap(last - middle)) == Wrap(last - first)
  {
  }

  /** So a reader that gets a unit's pair once in every round, in rounds first..last, has covered the whole
      interval: nothing is counted twice and nothing is lost. */
  lemma ReadersCoverEveryRound(a: AsynchronCounterState, seen: seq<Result>, u: nat)
    requires a.Valid() && seen != [] && u < a.Units()
    requires forall i :: 0 <= i < |seen| ==>
               Consecutive(seen[i], a.log) && seen[i].unit == u && seen[i].rounds == seen[0].rounds + i
    ensures var deltas := seq(|seen|, i requires 0 <= i < |seen| => Wrap(seen[i].second - seen[i].first));
            Wrap(Sum(deltas)) == Wrap(seen[|seen| - 1].second - seen[0].first)
  {
    var lo, hi := seen[0].rounds - 2, seen[|seen| - 1].rounds - 1;
    var deltas := seq(|seen|, i requires 0 <= i < |seen| => Wrap(seen[i].second - seen[i].first));
    assert deltas == Deltas(a.log, u, lo, hi);
    DeltasTelescope(a.log, u, lo, hi);
  }
}
