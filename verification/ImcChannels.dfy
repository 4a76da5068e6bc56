/** The memory channels of a socket and the controllers they belong to: how initDirect and initPerf
    fill num_imc_channels, and whether the per-controller reads add up to the socket's. */
module ImcChannels {
  import opened Options
  import opened Sums

  datatype ReadEvents = WithRead2 | ReadOnly

  /** The two read events of one memory channel. GNR, GNR_D, GRR and SRF count both. */
  datatype Channel = Channel(read: int, read2: int)

  function Reads(events: ReadEvents, c: Channel): int {
    if events.WithRead2? then c.read + c.read2 else c.read
  }

  function AllReads(events: ReadEvents, channels: seq<Channel>): seq<int> {
    seq(|channels|, i requires 0 <= i < |channels| => Reads(events, channels[i]))
  }

  /** The socket's reads: those of the first event of all channels, and on the families that have it those of
      the second. */
  lemma {:induction false} ReadsAddUp(channels: seq<Channel>, first: seq<int>, second: seq<int>)
    requires |first| == |second| == |channels|
    requires forall i :: 0 <= i < |channels| ==> channels[i].read == first[i] && channels[i].read2 == second[i]
    ensures Sum(AllReads(WithRead2, channels)) == Sum(first) + Sum(second)
    ensures Sum(AllReads(ReadOnly, channels)) == Sum(first)
  {
    SumPointwise(first, second, AllReads(WithRead2, channels));
    assert AllReads(ReadOnly, channels) == first;
  }

  /** The number of channels of the first k controllers. */
  function Begin(counts: seq<nat>, k: nat): nat
    requires k <= |counts|
  {
    if k == 0 then 0 else Begin(counts, k - 1) + counts[k - 1]
  }

  function Total(counts: seq<nat>): nat {
    Begin(counts, |counts|)
  }

  function Min(a: nat, b: nat): nat {
    if a < b then a else b
  }

  /** The part of a vector that the loop `i < end && i < size` visits. */
  function Clamped(values: seq<int>, begin: nat, end: nat): seq<int> {
    var e := Min(end, |values|);
    if begin <= e then values[begin..e] else []
  }

  lemma ClampedEmpty(values: seq<int>, begin: nat, end: nat)
    requires end <= begin
    ensures Sum(Clamped(values, begin, end)) == 0
  {
  }

  lemma ClampedStep(values: seq<int>, begin: nat, i: nat)
    requires begin <= i < |values|
    ensures Sum(Clamped(values, begin, i + 1)) == Sum(Clamped(values, begin, i)) + values[i]
  {
    assert Clamped(values, begin, i + 1)[..i - begin] == Clamped(values, begin, i);
  }

  lemma ClampedEnd(values: seq<int>, begin: nat, i: nat, end: nat)
    requires begin <= i && (i >= end || i >= |values|) && (i == begin || (i <= end && i <= |values|))
    ensures Clamped(values, begin, end) == Clamped(values, begin, i)
  {
  }

  function ControllerReads(values: seq<int>, counts: seq<nat>, k: nat): int
    requires k < |counts|
  {
    Wrap(Sum(Clamped(values, Begin(counts, k), Begin(counts, k + 1))))
  }

  lemma {:induction false} BeginIsSum(counts: seq<nat>, k: nat)
    requires k <= |counts|
    ensures Begin(counts, k) == Sum(counts[..k])
  {
    if k > 0 {
      BeginIsSum(counts, k - 1);
      SumPrefix(counts, k);
    }
  }

  /** A controller reads as many channels as it has, from where those of the controllers before it end, as far
      as there are channels. */
  lemma ControllerChannels(values: seq<int>, counts: seq<nat>, k: nat)
    requires k < |counts|
    ensures ControllerReads(values, counts, k) ==
            var begin := Sum(counts[..k]);
            if 0 <= begin <= |values| then
              Wrap(Sum(if begin + counts[k] <= |values| then values[begin..begin + counts[k]] else values[begin..]))
            else 0
  {
    WrapZero();
    BeginIsSum(counts, k);
    var begin, end := Begin(counts, k), Begin(counts, k + 1);
    assert end == begin + counts[k];
    hide Wrap, Sum, Begin;
    if begin > |values| {
      NothingClamped(values, begin, end);
    } else if end <= |values| {
      assert Clamped(values, begin, end) == values[begin..end];
    } else {
      assert Clamped(values, begin, end) == values[begin..];
    }
  }

  lemma NothingClamped(values: seq<int>, begin: nat, end: nat)
    requires begin > |values|
    ensures Sum(Clamped(values, begin, end)) == 0
  {
  }

  function PerController(values: seq<int>, counts: seq<nat>, n: nat): seq<int>
    requires n <= |counts|
  {
    seq(n, k requires 0 <= k < n => ControllerReads(values, counts, k))
  }

  function Prefix(values: seq<int>, end: nat): seq<int> {
    values[..Min(end, |values|)]
  }

  lemma PrefixStep(values: seq<int>, begin: nat, end: nat)
    requires begin <= end
    ensures Sum(Prefix(values, end)) == Sum(Prefix(values, begin)) + Sum(Clamped(values, begin, end))
  {
    assert Prefix(values, end) == Prefix(values, begin) + Clamped(values, begin, end);
    SumAppend(Prefix(values, begin), Clamped(values, begin, end));
  }

  lemma PerControllerStep(values: seq<int>, counts: seq<nat>, k: nat)
    requires 0 < k <= |counts|
    ensures Begin(counts, k - 1) <= Begin(counts, k)
    ensures Sum(PerController(values, counts, k)) ==
            Sum(PerController(values, counts, k - 1)) +
            Wrap(Sum(Clamped(values, Begin(counts, k - 1), Begin(counts, k))))
  {
    hide Wrap;
    assert PerController(values, counts, k)[..k - 1] == PerController(values, counts, k - 1);
  }

  /** The first k controllers read exactly the channels before the end of the k-th. */
  lemma {:induction false} PerControllerSum(values: seq<int>, counts: seq<nat>, k: nat)
    requires k <= |counts|
    ensures Wrap(Sum(PerController(values, counts, k))) == Wrap(Sum(Prefix(values, Begin(counts, k))))
  {
    hide Wrap, Clamped;
    if k > 0 {
      hide Sum, Prefix, PerController, Begin;
      PerControllerSum(values, counts, k - 1);
      PerControllerStep(values, counts, k);
      PrefixStep(values, Begin(counts, k - 1), Begin(counts, k));
      WrapBoth(Sum(PerController(values, counts, k - 1)), Sum(Prefix(values, Begin(counts, k - 1))),
               Sum(Clamped(values, Begin(counts, k - 1), Begin(counts, k))));
    } else {
      assert PerController(values, counts, 0) == Prefix(values, 0) == [];
    }
  }

  lemma WrapBoth(x: int, y: int, z: int)
    requires Wrap(x) == Wrap(y)
    ensures Wrap(x + Wrap(z)) == Wrap(y + z)
  {
    WrapAdd(x, z);
    WrapAdd(y, z);
  }

  /** Whatever the counters read, the controllers add up to the whole socket if and only if the channel
      counts reach the number of channels. */
  ghost predicate AddsUp(counts: seq<nat>, n: nat) {
    forall values: seq<int> :: |values| == n ==>
      Wrap(Sum(PerController(values, counts, |counts|))) == Wrap(Sum(values))
  }

  lemma ControllersAddUp(counts: seq<nat>, n: nat)
    ensures AddsUp(counts, n) <==> Total(counts) >= n
  {
    if Total(counts) >= n {
      forall values: seq<int> | |values| == n
        ensures Wrap(Sum(PerController(values, counts, |counts|))) == Wrap(Sum(values))
      {
        PerControllerSum(values, counts, |counts|);
        assert values[..n] == values;
      }
    } else {
      var values := LastOnly(n);
      PerControllerSum(values, counts, |counts|);
      SumZero(values[..Total(counts)]);
      SumSingle(values, n - 1);
      OneIsNotZero();
    }
  }

  /** Traffic on the last channel only. */
  function LastOnly(n: nat): (values: seq<int>)
    ensures |values| == n
  {
    seq(n, i => if i == n - 1 then 1 else 0)
  }

  lemma OneIsNotZero()
    ensures Wrap(1) != Wrap(0)
  {
  }

  class MemoryChannels {
    const events: ReadEvents
    var imcPMUs: seq<Channel>
    var numImcChannels: seq<nat>

    constructor (events: ReadEvents)
      ensures this.events == events && imcPMUs == [] && numImcChannels == []
    {
      this.events, imcPMUs, numImcChannels := events, [], [];
    }

    method GetImcReadsForChannels(begin: nat, end: nat) returns (result: int)
      ensures result == Wrap(Sum(Clamped(AllReads(events, imcPMUs), begin, end)))
    {
      hide Wrap, Sum, Clamped;
      ghost var values := AllReads(events, imcPMUs);
      WrapZero();
      ClampedEmpty(values, begin, begin);
      result := 0;
      var i := begin;
      while i < end && i < |imcPMUs|
        invariant begin <= i && (i == begin || (i <= end && i <= |imcPMUs|))
        invariant result == Wrap(Sum(Clamped(values, begin, i)))
      {
        ghost var before := Sum(Clamped(values, begin, i));
        ClampedStep(values, begin, i);
        WrapAdd(before, imcPMUs[i].read);
        result := Wrap(result + imcPMUs[i].read);
        if events.WithRead2? {
          WrapAdd(before + imcPMUs[i].read, imcPMUs[i].read2);
          result := Wrap(result + imcPMUs[i].read2);
        }
        i := i + 1;
      }
      ClampedEnd(values, begin, i, end);
    }

    method GetImcReads() returns (result: int)
      ensures result == Wrap(Sum(AllReads(events, imcPMUs)))
    {
      result := GetImcReadsForChannels(0, |imcPMUs|);
      assert Clamped(AllReads(events, imcPMUs), 0, |imcPMUs|) == AllReads(events, imcPMUs);
    }

    method GetImcReadsForController(controller: nat) returns (result: int)
      requires controller < |numImcChannels|
      ensures result == ControllerReads(AllReads(events, imcPMUs), numImcChannels, controller)
    {
      var beginChannel := 0;
      for i := 0 to controller
        invariant beginChannel == Begin(numImcChannels, i)
      {
        beginChannel := beginChannel + numImcChannels[i];
      }
      var endChannel := beginChannel + numImcChannels[controller];
      result := GetImcReadsForChannels(beginChannel, endChannel);
    }

    /** The loop over the controllers that a caller of the two functions would write. */
    method SumOverControllers() returns (sum: int, whole: int)
      requires Total(numImcChannels) >= |imcPMUs|
      ensures sum == whole == Wrap(Sum(AllReads(events, imcPMUs)))
    {
      hide Wrap, Clamped, ControllerReads;
      ghost var values := AllReads(events, imcPMUs);
      WrapZero();
      sum := 0;
      for k := 0 to |numImcChannels|
        invariant sum == Wrap(Sum(PerController(values, numImcChannels, k)))
      {
        var part := GetImcReadsForController(k);
        assert PerController(values, numImcChannels, k + 1)[..k] == PerController(values, numImcChannels, k);
        WrapAdd(Sum(PerController(values, numImcChannels, k)), part);
        sum := Wrap(sum + part);
      }
      PerControllerSum(values, numImcChannels, |numImcChannels|);
      assert values[..|values|] == values;
      whole := GetImcReads();
    }

    /** The loop over MCRegisterLocation: a controller is counted only if some channel answered. */
    method FromRegisterLocations(locations: seq<seq<Option<Channel>>>)
      modifies this
      ensures Total(numImcChannels) == old(Total(numImcChannels)) + |imcPMUs| - |old(imcPMUs)|
      ensures imcPMUs == old(imcPMUs) + Answered(Flat(locations, |locations|))
      ensures numImcChannels == old(numImcChannels) + AnsweredCounts(locations, |locations|)
    {
      hide Total;
      var imcHandles: seq<Channel> := [];
      var lastWorkingChannels := |imcHandles|;
      for ctrl := 0 to |locations|
        invariant imcPMUs == old(imcPMUs) && lastWorkingChannels == |imcHandles|
        invariant imcHandles == Answered(Flat(locations, ctrl))
        invariant Total(numImcChannels) == old(Total(numImcChannels)) + |imcHandles|
        invariant numImcChannels == old(numImcChannels) + AnsweredCounts(locations, ctrl)
      {
        var row := locations[ctrl];
        for channel := 0 to |row|
          invariant imcHandles == Answered(Flat(locations, ctrl)) + Answered(row[..channel])
        {
          assert row[..channel + 1][..channel] == row[..channel];
          if row[channel].Some? {
            imcHandles := imcHandles + [row[channel].value];
          }
        }
        assert row[..|row|] == row;
        AnsweredAppend(Flat(locations, ctrl), row);
        if |imcHandles| > lastWorkingChannels {
          TotalPush(numImcChannels, |imcHandles| - lastWorkingChannels);
          numImcChannels := numImcChannels + [|imcHandles| - lastWorkingChannels];
        }
        lastWorkingChannels := |imcHandles|;
      }
      imcPMUs := imcPMUs + imcHandles;
    }

    /** numChannels channels for each memory BAR. */
    method FromMemBars(numChannels: nat, bars: seq<seq<Channel>>)
      requires forall b :: 0 <= b < |bars| ==> |bars[b]| == numChannels
      modifies this
      ensures Total(numImcChannels) == old(Total(numImcChannels)) + |imcPMUs| - |old(imcPMUs)|
      ensures imcPMUs == old(imcPMUs) + Flat(bars, |bars|)
      ensures numImcChannels == old(numImcChannels) + Repeat(numChannels, |bars|)
    {
      for b := 0 to |bars|
        invariant imcPMUs == old(imcPMUs) + Flat(bars, b)
        invariant numImcChannels == old(numImcChannels) + Repeat(numChannels, b)
        invariant Total(numImcChannels) == old(Total(numImcChannels)) + |imcPMUs| - |old(imcPMUs)|
      {
        imcPMUs := imcPMUs + bars[b];
        TotalPush(numImcChannels, numChannels);
        numImcChannels := numImcChannels + [numChannels];
      }
    }

    /** PMUs found by discovery on SPR and EMR: two channels per controller, rounded up. */
    method FromDiscovery(found: seq<Channel>)
      modifies this
      ensures imcPMUs == old(imcPMUs) + found
      ensures numImcChannels == old(numImcChannels) + Repeat(2, (|imcPMUs| + 1) / 2)
      ensures Total(numImcChannels) == old(Total(numImcChannels)) + 2 * ((|imcPMUs| + 1) / 2)
    {
      imcPMUs := imcPMUs + found;
      var numChannels := 2;
      var c, size := 0, |imcPMUs|;
      while c < size
        invariant imcPMUs == old(imcPMUs) + found && size == |imcPMUs|
        invariant c == 2 * (c / 2) <= size + 1
        invariant numImcChannels == old(numImcChannels) + Repeat(2, c / 2)
        invariant Total(numImcChannels) == old(Total(numImcChannels)) + c
      {
        TotalPush(numImcChannels, numChannels);
        numImcChannels := numImcChannels + [numChannels];
        c := c + numChannels;
      }
    }

    /** One channel per controller on the GRR, GNR and SRF families. */
    method FromScfBar(limit: nat, numM2m: nat, channels: seq<Channel>)
      requires |channels| == Min(limit, numM2m)
      modifies this
      ensures Total(numImcChannels) == old(Total(numImcChannels)) + |imcPMUs| - |old(imcPMUs)|
      ensures imcPMUs == old(imcPMUs) + channels && numImcChannels == old(numImcChannels) + Repeat(1, |channels|)
    {
      for channel := 0 to |channels|
        invariant imcPMUs == old(imcPMUs) + channels[..channel]
        invariant numImcChannels == old(numImcChannels) + Repeat(1, channel)
        invariant Total(numImcChannels) == old(Total(numImcChannels)) + channel
      {
        imcPMUs := imcPMUs + [channels[channel]];
        TotalPush(numImcChannels, 1);
        numImcChannels := numImcChannels + [1];
      }
      assert channels[..|channels|] == channels;
    }

    /** initDirect as far as memory channels go; ok is false where it throws for lack of channels. */
    method InitDirect(locations: seq<seq<Option<Channel>>>, numChannels: nat, bars: seq<seq<Channel>>,
                      discovered: Option<seq<Channel>>, scf: Option<(nat, nat, seq<Channel>)>)
      returns (ok: bool)
      requires imcPMUs == [] && numImcChannels == []
      requires forall b :: 0 <= b < |bars| ==> |bars[b]| == numChannels
      requires scf.Some? ==> |scf.value.2| == Min(scf.value.0, scf.value.1)
      modifies this
      ensures Total(numImcChannels) >= |imcPMUs|
      ensures ok <==> imcPMUs != []
      ensures imcPMUs == Answered(Flat(locations, |locations|))
                         + (if numChannels > 0 then Flat(bars, |bars|)
                            else if discovered.Some? then discovered.value
                            else [])
                         + (if scf.Some? then scf.value.2 else [])
      ensures AddsUp(numImcChannels, |imcPMUs|)
    {
      assert Total(numImcChannels) == 0;
      hide Total, Answered, Flat, AnsweredCounts, Repeat, AddsUp;
      FromRegisterLocations(locations);
      ghost var first := imcPMUs;
      assert first == Answered(Flat(locations, |locations|));
      if numChannels > 0 {
        FromMemBars(numChannels, bars);
      } else if discovered.Some? {
        FromDiscovery(discovered.value);
      }
      ghost var middle := if numChannels > 0 then Flat(bars, |bars|)
                          else if discovered.Some? then discovered.value
                          else [];
      assert imcPMUs == first + middle;
      if scf.Some? {
        FromScfBar(scf.value.0, scf.value.1, scf.value.2);
      }
      ok := imcPMUs != [];
      ControllersAddUp(numImcChannels, |imcPMUs|);
    }

    /** initPerf divides the channels evenly among the controllers, dropping the remainder. */
    method InitPerf(channels: seq<Channel>, numM2m: nat, numHa: nat)
      requires imcPMUs == [] && numImcChannels == []
      modifies this
      ensures imcPMUs == channels
      ensures var k := if numM2m < numHa then numHa else numM2m;
              && numImcChannels == PerfCounts(|channels|, k)
              && (AddsUp(numImcChannels, |imcPMUs|) <==> channels == [] || (k > 0 && |channels| % k == 0))
    {
      hide AddsUp;
      var numMemControllers := if numM2m < numHa then numHa else numM2m;
      for i := 0 to numMemControllers
        invariant numImcChannels == PerfCounts(|channels|, numMemControllers)[..i]
      {
        var channelsPerController := |channels| / numMemControllers;
        numImcChannels := numImcChannels + [channelsPerController];
      }
      imcPMUs := channels;
      PerfAddsUp(|channels|, numMemControllers);
    }
  }

  function PerfCounts(n: nat, k: nat): seq<nat> {
    seq(k, i requires 0 <= i < k => n / k)
  }

  /** Under initPerf the controllers add up to the socket exactly when the division leaves no remainder. */
  lemma PerfAddsUp(n: nat, k: nat)
    ensures AddsUp(PerfCounts(n, k), n) <==> n == 0 || (k > 0 && n % k == 0)
  {
    ControllersAddUp(PerfCounts(n, k), n);
    if k > 0 {
      EqualCounts(PerfCounts(n, k), n / k, k);
      hide AddsUp;
      NoRemainder(n, k);
    }
  }

  lemma NoRemainder(n: nat, k: nat)
    requires k > 0
    ensures k * (n / k) >= n <==> n % k == 0
    ensures n == 0 ==> n % k == 0
  {
    assert n == k * (n / k) + n % k;
  }

  lemma {:induction false} EqualCounts(counts: seq<nat>, v: nat, k: nat)
    requires k <= |counts| && forall i :: 0 <= i < |counts| ==> counts[i] == v
    ensures Begin(counts, k) == k * v
  {
    if k > 0 {
      EqualCounts(counts, v, k - 1);
    }
  }

  lemma {:induction false} BeginOfPrefix(counts: seq<nat>, more: seq<nat>, k: nat)
    requires k <= |counts|
    ensures Begin(counts + more, k) == Begin(counts, k)
  {
    if k > 0 {
      BeginOfPrefix(counts, more, k - 1);
    }
  }

  lemma TotalPush(counts: seq<nat>, n: nat)
    ensures Total(counts + [n]) == Total(counts) + n
  {
    BeginOfPrefix(counts, [n], |counts|);
  }

  function Repeat(v: nat, n: nat): seq<nat> {
    if n == 0 then [] else Repeat(v, n - 1) + [v]
  }

  /** The channels that answered, for each controller with at least one. */
  function AnsweredCounts(rows: seq<seq<Option<Channel>>>, n: nat): seq<nat>
    requires n <= |rows|
  {
    if n == 0 then []
    else
      var count := |Answered(rows[n - 1])|;
      AnsweredCounts(rows, n - 1) + if count > 0 then [count] else []
  }

  /** The first n rows one after the other, and the entries that are not empty. */
  function Flat<T>(rows: seq<seq<T>>, n: nat): seq<T>
    requires n <= |rows|
  {
    if n == 0 then [] else Flat(rows, n - 1) + rows[n - 1]
  }

  function Answered(s: seq<Option<Channel>>): seq<Channel> {
    if s == [] then []
    else Answered(s[..|s| - 1]) + if s[|s| - 1].Some? then [s[|s| - 1].value] else []
  }

  /** Exactly the channels that answered are kept, in their order: idx are their positions. */
  lemma {:induction false} AnsweredInOrder(s: seq<Option<Channel>>) returns (idx: seq<nat>)
    ensures |idx| == |Answered(s)|
    ensures forall k :: 0 <= k < |idx| ==>
              idx[k] < |s| && s[idx[k]].Some? && Answered(s)[k] == s[idx[k]].value
    ensures forall j, k :: 0 <= j < k < |idx| ==> idx[j] < idx[k]
    ensures forall i :: 0 <= i < |s| && s[i].Some? ==> i in idx
  {
    if s == [] {
      idx := [];
    } else {
      var n := |s| - 1;
      var before := AnsweredInOrder(s[..n]);
      idx := before + if s[n].Some? then [n] else [];
      forall i | 0 <= i < n && s[i].Some? ensures i in idx {
        assert s[..n][i] == s[i] && i in before;
      }
    }
  }

  /** Channel j of row i comes after all channels of the rows before it. */
  lemma {:induction false} FlatAt<T>(rows: seq<seq<T>>, lengths: seq<nat>, n: nat, i: nat, j: nat)
    requires i < n <= |rows| == |lengths| && j < |rows[i]|
    requires forall r :: 0 <= r < |rows| ==> lengths[r] == |rows[r]|
    ensures |Flat(rows, n)| == Begin(lengths, n)
    ensures Begin(lengths, i) + j < |Flat(rows, n)| && Flat(rows, n)[Begin(lengths, i) + j] == rows[i][j]
  {
    FlatLength(rows, lengths, n - 1);
    if i < n - 1 {
      FlatAt(rows, lengths, n - 1, i, j);
    }
  }

  lemma {:induction false} FlatLength<T>(rows: seq<seq<T>>, lengths: seq<nat>, n: nat)
    requires n <= |rows| == |lengths|
    requires forall r :: 0 <= r < |rows| ==> lengths[r] == |rows[r]|
    ensures |Flat(rows, n)| == Begin(lengths, n)
  {
    if n > 0 {
      FlatLength(rows, lengths, n - 1);
    }
  }

  lemma {:induction false} AnsweredAppend(a: seq<Option<Channel>>, b: seq<Option<Channel>>)
    ensures Answered(a + b) == Answered(a) + Answered(b)
  {
    if b == [] {
      assert a + b == a;
    } else {
      var n := |b| - 1;
      assert (a + b)[..|a + b| - 1] == a + b[..n];
      AnsweredAppend(a, b[..n]);
    }
  }
}
