/** The rest of discoverSystemTopology: dense socket numbers, threads per core, reference cores. */
module SystemTopology {

  datatype TopologyEntry = TopologyEntry(
    os_id: int, thread_id: int, core_id: int, module_id: int, tile_id: int,
    die_id: int, die_grp_id: int, socket_id: int)

  /** A default-constructed entry, which an offline core keeps. */
  const OFFLINE: TopologyEntry := TopologyEntry(-1, -1, -1, -1, -1, -1, -1, -1)

  predicate IsOnline(e: TopologyEntry) {
    e.os_id != -1 && e.core_id != -1 && e.socket_id != -1
  }

  /** What population leaves behind on Linux: entries of offline cores, and populated entries. */
  predicate Populated(e: TopologyEntry) {
    e == OFFLINE || (e.os_id >= 0 && e.core_id >= 0 && e.socket_id >= 0)
  }

  // ---------------------------------------------------------------------------------------
  // Threads per core

  predicate IsSameCore(a: TopologyEntry, b: TopologyEntry) {
    a.core_id == b.core_id && a.module_id == b.module_id && a.tile_id == b.tile_id &&
    a.die_id == b.die_id && a.die_grp_id == b.die_grp_id && a.socket_id == b.socket_id
  }

  /** TopologyEntry's operator <. */
  predicate Less(a: TopologyEntry, b: TopologyEntry) {
    if a.socket_id != b.socket_id then a.socket_id < b.socket_id
    else if a.die_grp_id != b.die_grp_id then a.die_grp_id < b.die_grp_id
    else if a.die_id != b.die_id then a.die_id < b.die_id
    else if a.tile_id != b.tile_id then a.tile_id < b.tile_id
    else if a.module_id != b.module_id then a.module_id < b.module_id
    else if a.core_id != b.core_id then a.core_id < b.core_id
    else a.thread_id < b.thread_id
  }

  predicate IsSorted(s: seq<TopologyEntry>) {
    forall i, j :: 0 <= i < j < |s| ==> !Less(s[j], s[i])
  }

  /** Sorting puts the threads of one core next to each other. */
  lemma SameCoreAdjacent(s: seq<TopologyEntry>, i: nat, j: nat, k: nat)
    requires IsSorted(s) && i < j < k < |s|
    ensures IsSameCore(s[i], s[k]) ==> IsSameCore(s[i], s[j])
  {
    assert !Less(s[j], s[i]) && !Less(s[k], s[j]);
  }

  /** How many entries are threads of the same core as e. */
  function Siblings(s: seq<TopologyEntry>, e: TopologyEntry): nat {
    if s == [] then 0
    else Siblings(s[..|s| - 1], e) + if IsSameCore(s[|s| - 1], e) then 1 else 0
  }

  lemma SiblingsNext(s: seq<TopologyEntry>, i: nat, e: TopologyEntry)
    requires i < |s|
    ensures Siblings(s[..i + 1], e) == Siblings(s[..i], e) + if IsSameCore(s[i], e) then 1 else 0
  {
    assert s[..i + 1][..i] == s[..i];
  }

  lemma {:induction false} SiblingsSameCore(s: seq<TopologyEntry>, a: TopologyEntry, b: TopologyEntry)
    requires IsSameCore(a, b)
    ensures Siblings(s, a) == Siblings(s, b)
  {
    if s != [] {
      SiblingsSameCore(s[..|s| - 1], a, b);
    }
  }

  lemma {:induction false} NoSiblings(s: seq<TopologyEntry>, e: TopologyEntry)
    requires forall i :: 0 <= i < |s| ==> !IsSameCore(s[i], e)
    ensures Siblings(s, e) == 0
  {
    if s != [] {
      NoSiblings(s[..|s| - 1], e);
    }
  }

  lemma {:induction false} SiblingsConcat(a: seq<TopologyEntry>, b: seq<TopologyEntry>, e: TopologyEntry)
    ensures Siblings(a + b, e) == Siblings(a, e) + Siblings(b, e)
  {
    if b == [] {
      assert a + b == a;
    } else {
      assert (a + b)[..|a + b| - 1] == a + b[..|b| - 1];
      SiblingsConcat(a, b[..|b| - 1], e);
    }
  }

  lemma SiblingsRemove(s: seq<TopologyEntry>, i: nat, e: TopologyEntry)
    requires i < |s|
    ensures Siblings(s, e) == Siblings(s[..i] + s[i + 1..], e) + if IsSameCore(s[i], e) then 1 else 0
  {
    assert s == s[..i + 1] + s[i + 1..];
    SiblingsConcat(s[..i + 1], s[i + 1..], e);
    SiblingsNext(s, i, e);
    SiblingsConcat(s[..i], s[i + 1..], e);
  }

  lemma RemoveOne(a: seq<TopologyEntry>, i: nat)
    requires i < |a|
    ensures multiset(a[..i] + a[i + 1..]) == multiset(a) - multiset{a[i]}
  {
    assert a == a[..i] + [a[i]] + a[i + 1..];
  }

  /** The count does not depend on the order of the entries. */
  lemma {:induction false} SiblingsPermuted(a: seq<TopologyEntry>, b: seq<TopologyEntry>, e: TopologyEntry)
    requires multiset(a) == multiset(b)
    ensures Siblings(a, e) == Siblings(b, e)
    decreases |a|
  {
    if a == [] {
      assert |multiset(b)| == 0;
    } else {
      assert a[0] in multiset(b);
      var i :| 0 <= i < |b| && b[i] == a[0];
      RemoveOne(a, 0);
      RemoveOne(b, i);
      SiblingsRemove(a, 0, e);
      SiblingsRemove(b, i, e);
      SiblingsPermuted(a[..0] + a[1..], b[..i] + b[i + 1..], e);
    }
  }

  predicate MaxSiblings(s: seq<TopologyEntry>, t: nat) {
    && (forall i :: 0 <= i < |s| && IsOnline(s[i]) ==> Siblings(s, s[i]) <= t)
    && (exists i :: 0 <= i < |s| && IsOnline(s[i]) && Siblings(s, s[i]) == t)
  }

  /** The scan's state after i entries, the first `skipped` of which are offline: the best of the
      cores passed, and the size of the group of firstCore, the current core. */
  ghost predicate ScanInv(s: seq<TopologyEntry>, skipped: nat, i: nat,
                          firstCore: TopologyEntry, best: nat, current: nat)
    requires skipped <= i <= |s|
  {
    && (forall j :: skipped <= j < i ==>
          Siblings(s[..i], s[j]) <= if IsSameCore(s[j], firstCore) then current else best)
    && (best > 0 ==> exists j :: skipped <= j < i && Siblings(s[..i], s[j]) == best && !IsSameCore(s[j], firstCore))
    && Siblings(s[..i], firstCore) == current
    && (i > skipped ==> IsSameCore(s[i - 1], firstCore) && current > 0)
  }

  lemma ScanStart(s: seq<TopologyEntry>, skipped: nat)
    requires skipped < |s| && forall i :: 0 <= i < skipped ==> !IsSameCore(s[i], s[skipped])
    ensures ScanInv(s, skipped, skipped, s[skipped], 0, 0)
  {
    NoSiblings(s[..skipped], s[skipped]);
  }

  lemma SameAsItself(e: TopologyEntry)
    ensures IsSameCore(e, e)
  {
  }

  lemma ScanSame(s: seq<TopologyEntry>, skipped: nat, i: nat, firstCore: TopologyEntry, best: nat, current: nat)
    requires skipped <= i < |s| && ScanInv(s, skipped, i, firstCore, best, current)
    requires IsSameCore(s[i], firstCore)
    ensures ScanInv(s, skipped, i + 1, firstCore, best, current + 1)
  {
    forall j | skipped <= j < i + 1
      ensures Siblings(s[..i + 1], s[j]) <= if IsSameCore(s[j], firstCore) then current + 1 else best
    {
      SiblingsNext(s, i, s[j]);
      if j == i {
        SiblingsSameCore(s[..i], s[i], firstCore);
      }
    }
    SiblingsNext(s, i, firstCore);
    if best > 0 {
      var j :| skipped <= j < i && Siblings(s[..i], s[j]) == best && !IsSameCore(s[j], firstCore);
      SiblingsNext(s, i, s[j]);
    }
  }

  lemma ScanNew(s: seq<TopologyEntry>, skipped: nat, i: nat, firstCore: TopologyEntry, best: nat, current: nat)
    requires IsSorted(s) && skipped < i < |s| && ScanInv(s, skipped, i, firstCore, best, current)
    requires !IsSameCore(s[i], firstCore)
    requires forall j :: 0 <= j < skipped ==> !IsSameCore(s[j], s[i])
    ensures ScanInv(s, skipped, i + 1, s[i], if best > current then best else current, 1)
  {
    var most := if best > current then best else current;
    forall j | 0 <= j < i ensures !IsSameCore(s[j], s[i]) {
      if skipped <= j < i - 1 {
        SameCoreAdjacent(s, j, i - 1, i);
      }
    }
    forall j | skipped <= j < i ensures Siblings(s[..i + 1], s[j]) <= most {
      SiblingsNext(s, i, s[j]);
    }
    SiblingsNext(s, i, s[i]);
    NoSiblings(s[..i], s[i]);
    SiblingsNext(s, i, s[i - 1]);
    SiblingsSameCore(s[..i], s[i - 1], firstCore);
    if best > current {
      var j :| skipped <= j < i && Siblings(s[..i], s[j]) == best && !IsSameCore(s[j], firstCore);
      SiblingsNext(s, i, s[j]);
    } else {
      assert Siblings(s[..i + 1], s[i - 1]) == current && !IsSameCore(s[i - 1], s[i]);
    }
  }

  /** The entries among the first n whose six ids are those of e. */
  function ThreadsOf(s: seq<TopologyEntry>, e: TopologyEntry, n: nat): set<nat>
    requires n <= |s|
  {
    set j: nat | j < n && s[j].core_id == e.core_id && s[j].module_id == e.module_id && s[j].tile_id == e.tile_id &&
                 s[j].die_id == e.die_id && s[j].die_grp_id == e.die_grp_id && s[j].socket_id == e.socket_id
  }

  lemma {:induction false} SiblingsAreThreads(s: seq<TopologyEntry>, e: TopologyEntry, n: nat)
    requires n <= |s|
    ensures Siblings(s[..n], e) == |ThreadsOf(s, e, n)|
  {
    if n == 0 {
      assert ThreadsOf(s, e, 0) == {};
    } else {
      SiblingsAreThreads(s, e, n - 1);
      SiblingsNext(s, n - 1, e);
      assert ThreadsOf(s, e, n) == ThreadsOf(s, e, n - 1) + if IsSameCore(s[n - 1], e) then {n - 1} else {};
    }
  }

  lemma {:induction false} BoundedSet(s: set<int>, m: nat)
    requires forall x :: x in s ==> 0 <= x < m
    ensures |s| <= m
  {
    if m == 0 {
      assert forall x :: x in s ==> x in {};
      assert s <= {};
    } else {
      BoundedSet(s - {m - 1}, m - 1);
    }
  }

  lemma {:induction false} DistinctThreads(s: seq<TopologyEntry>, js: set<nat>)
    requires forall j :: j in js ==> j < |s|
    requires forall i, j :: i in js && j in js && i != j ==> s[i].thread_id != s[j].thread_id
    ensures |js| == |set j | j in js :: s[j].thread_id|
    decreases |js|
  {
    if js != {} {
      var k :| k in js;
      DistinctThreads(s, js - {k});
      assert (set j | j in js :: s[j].thread_id) == (set j | j in js - {k} :: s[j].thread_id) + {s[k].thread_id};
    }
  }

  /** If the threads of a core have different thread ids below m, no core has more than m threads. */
  lemma ThreadsWithinDomain(topology: seq<TopologyEntry>, threads_per_core: nat, m: nat)
    requires exists i :: 0 <= i < |topology| && IsOnline(topology[i])
                         && |ThreadsOf(topology, topology[i], |topology|)| == threads_per_core
    requires forall i :: 0 <= i < |topology| ==> Populated(topology[i])
    requires forall i :: 0 <= i < |topology| && IsOnline(topology[i]) ==> 0 <= topology[i].thread_id < m
    requires forall i, j :: 0 <= i < j < |topology| && IsOnline(topology[i]) && IsOnline(topology[j])
                            && topology[i].core_id == topology[j].core_id
                            && topology[i].module_id == topology[j].module_id
                            && topology[i].tile_id == topology[j].tile_id
                            && topology[i].die_id == topology[j].die_id
                            && topology[i].die_grp_id == topology[j].die_grp_id
                            && topology[i].socket_id == topology[j].socket_id ==>
                              topology[i].thread_id != topology[j].thread_id
    ensures 1 <= threads_per_core <= m
  {
    var i :| 0 <= i < |topology| && IsOnline(topology[i])
             && |ThreadsOf(topology, topology[i], |topology|)| == threads_per_core;
    var js := ThreadsOf(topology, topology[i], |topology|);
    assert i in js;
    assert forall j :: j in js ==> IsOnline(topology[j]);
    DistinctThreads(topology, js);
    BoundedSet(set j | j in js :: topology[j].thread_id, m);
  }

  /** If all online entries have different core ids, every core has one thread. */
  lemma OneThreadPerCore(topology: seq<TopologyEntry>, threads_per_core: nat)
    requires exists i :: 0 <= i < |topology| && IsOnline(topology[i])
                         && |ThreadsOf(topology, topology[i], |topology|)| == threads_per_core
    requires forall i :: 0 <= i < |topology| ==> Populated(topology[i])
    requires forall i, j :: 0 <= i < j < |topology| && IsOnline(topology[i]) && IsOnline(topology[j]) ==>
               topology[i].core_id != topology[j].core_id
    ensures threads_per_core == 1
  {
    var i :| 0 <= i < |topology| && IsOnline(topology[i])
             && |ThreadsOf(topology, topology[i], |topology|)| == threads_per_core;
    forall j | j in ThreadsOf(topology, topology[i], |topology|) ensures j == i {
      assert IsOnline(topology[j]);
    }
    assert ThreadsOf(topology, topology[i], |topology|) == {i};
  }

  /** The scan over the sorted copy of the topology finds the largest number of threads on a core: of online
      entries that have all six ids in common. */
  method ThreadsPerCore(topology: seq<TopologyEntry>, sortedTopology: seq<TopologyEntry>)
    returns (threads_per_core: nat)
    requires forall i :: 0 <= i < |topology| ==> Populated(topology[i])
    requires exists i :: 0 <= i < |topology| && IsOnline(topology[i])
    requires IsSorted(sortedTopology) && multiset(sortedTopology) == multiset(topology)
    ensures MaxSiblings(topology, threads_per_core)
    ensures forall i :: 0 <= i < |topology| && IsOnline(topology[i]) ==>
              |ThreadsOf(topology, topology[i], |topology|)| <= threads_per_core
    ensures exists i :: 0 <= i < |topology| && IsOnline(topology[i])
                        && |ThreadsOf(topology, topology[i], |topology|)| == threads_per_core
  {
    hide MaxSiblings, ScanInv, ThreadsOf, Siblings, IsSorted, IsSameCore, Populated;
    var s := sortedTopology;
    SortedCopy(topology, s);
    var currentCore := 0;
    while currentCore < |s| && !IsOnline(s[currentCore])
      invariant 0 <= currentCore <= |s|
      invariant forall i :: 0 <= i < currentCore ==> !IsOnline(s[i])
    {
      currentCore := currentCore + 1;
    }
    ghost var skipped := currentCore;
    OfflineFirst(s, skipped);
    threads_per_core := 0;
    var current_threads_per_core := 0;
    var firstCore := s[currentCore];
    ScanStart(s, skipped);
    while currentCore < |s|
      invariant skipped <= currentCore <= |s|
      invariant currentCore == skipped ==> firstCore == s[skipped]
      invariant ScanInv(s, skipped, currentCore, firstCore, threads_per_core, current_threads_per_core)
    {
      SameAsItself(firstCore);
      if IsSameCore(s[currentCore], firstCore) {
        ScanSame(s, skipped, currentCore, firstCore, threads_per_core, current_threads_per_core);
        current_threads_per_core := current_threads_per_core + 1;
      } else {
        ScanNew(s, skipped, currentCore, firstCore, threads_per_core, current_threads_per_core);
        threads_per_core :=
          if threads_per_core > current_threads_per_core then threads_per_core else current_threads_per_core;
        firstCore := s[currentCore];
        current_threads_per_core := 1;
      }
      currentCore := currentCore + 1;
    }
    ScanResult(s, skipped, firstCore, threads_per_core, current_threads_per_core);
    threads_per_core :=
      if threads_per_core > current_threads_per_core then threads_per_core else current_threads_per_core;
    MaxSiblingsPermuted(s, topology, threads_per_core);
    MaxThreads(topology, threads_per_core);
  }

  lemma MaxThreads(topology: seq<TopologyEntry>, threads_per_core: nat)
    requires MaxSiblings(topology, threads_per_core)
    ensures forall i :: 0 <= i < |topology| && IsOnline(topology[i]) ==>
              |ThreadsOf(topology, topology[i], |topology|)| <= threads_per_core
    ensures exists i :: 0 <= i < |topology| && IsOnline(topology[i])
                        && |ThreadsOf(topology, topology[i], |topology|)| == threads_per_core
  {
    hide Siblings, ThreadsOf;
    assert topology[..|topology|] == topology;
    forall i | 0 <= i < |topology|
      ensures |ThreadsOf(topology, topology[i], |topology|)| == Siblings(topology, topology[i])
    {
      SiblingsAreThreads(topology, topology[i], |topology|);
    }
    var i :| 0 <= i < |topology| && IsOnline(topology[i]) && Siblings(topology, topology[i]) == threads_per_core;
    assert |ThreadsOf(topology, topology[i], |topology|)| == threads_per_core;
  }

  lemma ScanResult(s: seq<TopologyEntry>, skipped: nat, firstCore: TopologyEntry, best: nat, current: nat)
    requires skipped < |s| && ScanInv(s, skipped, |s|, firstCore, best, current)
    requires forall i :: 0 <= i < |s| ==> (IsOnline(s[i]) <==> i >= skipped)
    ensures MaxSiblings(s, if best > current then best else current)
  {
    assert s[..|s|] == s;
    if best <= current {
      SiblingsSameCore(s, s[|s| - 1], firstCore);
      assert IsOnline(s[|s| - 1]) && Siblings(s, s[|s| - 1]) == current;
    }
  }

  lemma SortedCopy(topology: seq<TopologyEntry>, s: seq<TopologyEntry>)
    requires forall i :: 0 <= i < |topology| ==> Populated(topology[i])
    requires exists i :: 0 <= i < |topology| && IsOnline(topology[i])
    requires multiset(s) == multiset(topology)
    ensures forall i :: 0 <= i < |s| ==> Populated(s[i])
    ensures exists i :: 0 <= i < |s| && IsOnline(s[i])
  {
    forall i | 0 <= i < |s| ensures Populated(s[i]) {
      assert s[i] in multiset(topology);
    }
    var i :| 0 <= i < |topology| && IsOnline(topology[i]);
    assert topology[i] in multiset(s);
  }

  /** The order puts all offline entries first. */
  lemma OfflineFirst(s: seq<TopologyEntry>, skipped: nat)
    requires IsSorted(s) && (forall i :: 0 <= i < |s| ==> Populated(s[i]))
    requires exists i :: 0 <= i < |s| && IsOnline(s[i])
    requires skipped <= |s| && (forall i :: 0 <= i < skipped ==> !IsOnline(s[i]))
    requires skipped < |s| ==> IsOnline(s[skipped])
    ensures skipped < |s|
    ensures forall i :: 0 <= i < |s| ==> (IsOnline(s[i]) <==> i >= skipped)
    ensures forall i, j :: 0 <= i < skipped <= j < |s| ==> !IsSameCore(s[i], s[j])
  {
    forall i | skipped < i < |s| ensures IsOnline(s[i]) {
      assert !Less(s[i], s[skipped]);
    }
  }

  lemma MaxSiblingsPermuted(a: seq<TopologyEntry>, b: seq<TopologyEntry>, t: nat)
    requires multiset(a) == multiset(b) && MaxSiblings(a, t)
    ensures MaxSiblings(b, t)
  {
    forall i | 0 <= i < |b| && IsOnline(b[i]) ensures Siblings(b, b[i]) <= t {
      assert b[i] in multiset(a);
      SiblingsPermuted(a, b, b[i]);
    }
    var i :| 0 <= i < |a| && IsOnline(a[i]) && Siblings(a, a[i]) == t;
    assert a[i] in multiset(b);
    var j :| 0 <= j < |b| && b[j] == a[i];
    SiblingsPermuted(a, b, a[i]);
  }

  // ---------------------------------------------------------------------------------------
  // Socket numbers and reference cores

  predicate StrictlySorted(keys: seq<int>) {
    forall i, j :: 0 <= i < j < |keys| ==> keys[i] < keys[j]
  }

  /** Inserting into socketIdMap, a std::map, whose keys are kept in ascending order. */
  method InsertKey(keys: seq<int>, key: int) returns (result: seq<int>)
    requires StrictlySorted(keys)
    ensures StrictlySorted(result)
    ensures forall k :: k in result <==> k in keys || k == key
  {
    var i := 0;
    while i < |keys| && keys[i] < key
      invariant 0 <= i <= |keys|
      invariant forall j :: 0 <= j < i ==> keys[j] < key
    {
      i := i + 1;
    }
    if i < |keys| && keys[i] == key {
      return keys;
    }
    result := keys[..i] + [key] + keys[i..];
  }

  /** The socket ids that the online cores report. */
  predicate Observed(topology: seq<TopologyEntry>, n: nat, keys: seq<int>)
    requires n <= |topology|
  {
    && (forall i :: 0 <= i < n && IsOnline(topology[i]) ==> topology[i].socket_id in keys)
    && (forall k :: k in keys ==> exists i :: 0 <= i < n && IsOnline(topology[i]) && topology[i].socket_id == k)
  }

  predicate OnSocket(e: TopologyEntry, s: int) {
    IsOnline(e) && e.socket_id == s
  }

  predicate HasOnlineCore(topology: seq<TopologyEntry>, s: int) {
    exists i :: 0 <= i < |topology| && OnSocket(topology[i], s)
  }

  /** An entry whose socket id has been replaced by its position among the sorted observed ids. */
  predicate RenumberedEntry(before: TopologyEntry, after: TopologyEntry, keys: seq<int>) {
    if IsOnline(before) then
      && after == before.(socket_id := after.socket_id)
      && 0 <= after.socket_id < |keys| && keys[after.socket_id] == before.socket_id
    else after == before
  }

  predicate Renumbered(before: seq<TopologyEntry>, after: seq<TopologyEntry>, keys: seq<int>) {
    && |before| == |after|
    && StrictlySorted(keys) && Observed(before, |before|, keys)
    && forall i :: 0 <= i < |before| ==> RenumberedEntry(before[i], after[i], keys)
  }

  /** The new socket numbers are 0..n-1, all of them are used, equal ids stay equal and the order of
      the ids is kept. */
  lemma RenumberingIsDense(before: seq<TopologyEntry>, after: seq<TopologyEntry>, keys: seq<int>)
    requires Renumbered(before, after, keys)
    ensures forall i :: 0 <= i < |after| ==> (IsOnline(after[i]) <==> IsOnline(before[i]))
    ensures forall i :: 0 <= i < |after| && IsOnline(after[i]) ==> 0 <= after[i].socket_id < |keys|
    ensures forall s :: 0 <= s < |keys| ==> HasOnlineCore(after, s)
    ensures forall i, j :: 0 <= i < |after| && 0 <= j < |after| && IsOnline(after[i]) && IsOnline(after[j]) ==>
              (after[i].socket_id < after[j].socket_id <==> before[i].socket_id < before[j].socket_id)
  {
    assert forall i :: 0 <= i < |after| ==> RenumberedEntry(before[i], after[i], keys);
    forall s | 0 <= s < |keys| ensures HasOnlineCore(after, s) {
      assert keys[s] in keys;
      var i :| 0 <= i < |before| && IsOnline(before[i]) && before[i].socket_id == keys[s];
      assert RenumberedEntry(before[i], after[i], keys);
      assert keys[after[i].socket_id] == keys[s];
      assert OnSocket(after[i], s);
    }
  }

  /** The keys collected while the topology is populated, and the loop that renumbers the entries in
      place; the ghost result is the list of observed ids. */
  method RenumberSockets(topology: array<TopologyEntry>) returns (num_sockets: nat, ghost keys: seq<int>)
    modifies topology
    ensures Renumbered(old(topology[..]), topology[..], keys)
    ensures num_sockets == if |keys| > 1 then |keys| else 1
  {
    var ids: seq<int> := [];
    ghost var before := topology[..];
    for i := 0 to topology.Length
      invariant topology[..] == before
      invariant StrictlySorted(ids) && Observed(before, i, ids)
    {
      if IsOnline(topology[i]) {
        ghost var collected := ids;
        ids := InsertKey(ids, topology[i].socket_id);
        forall k | k in ids
          ensures exists j :: 0 <= j < i + 1 && IsOnline(before[j]) && before[j].socket_id == k
        {
          if k in collected {
            var j :| 0 <= j < i && IsOnline(before[j]) && before[j].socket_id == k;
            assert IsOnline(before[j]);
          } else {
            assert IsOnline(before[i]) && before[i].socket_id == k;
          }
        }
      }
    }
    num_sockets := if |ids| > 1 then |ids| else 1;
    var socketIdMap: map<int, nat> := map[];
    for sid := 0 to |ids|
      invariant forall k :: k in socketIdMap <==> k in ids[..sid]
      invariant forall k :: k in socketIdMap ==> socketIdMap[k] < sid && ids[socketIdMap[k]] == k
    {
      socketIdMap := socketIdMap[ids[sid] := sid];
    }
    for i := 0 to topology.Length
      invariant forall j :: 0 <= j < i ==> RenumberedEntry(before[j], topology[j], ids)
      invariant forall j :: i <= j < topology.Length ==> topology[j] == before[j]
    {
      if IsOnline(topology[i]) {
        assert before[i].socket_id in ids[..|ids|];
        topology[i] := topology[i].(socket_id := socketIdMap[topology[i].socket_id]);
      }
    }
    keys := ids;
  }

  /** The highest-numbered online core of socket s among the first n, -1 if there is none. */
  function LastCore(topology: seq<TopologyEntry>, s: int, n: nat): (c: int)
    requires n <= |topology|
    ensures -1 <= c < n
    ensures c != -1 ==> IsOnline(topology[c]) && topology[c].socket_id == s
    ensures forall i :: c < i < n ==> !(IsOnline(topology[i]) && topology[i].socket_id == s)
  {
    if n == 0 then -1
    else if IsOnline(topology[n - 1]) && topology[n - 1].socket_id == s then n - 1
    else LastCore(topology, s, n - 1)
  }

  /** How many of the first n reference cores exist. */
  function OnlineSockets(refCores: seq<int>, n: nat): nat
    requires n <= |refCores|
  {
    if n == 0 then 0 else OnlineSockets(refCores, n - 1) + if refCores[n - 1] != -1 then 1 else 0
  }

  /** The loops that pick socketRefCore and count the online sockets. */
  method ChooseRefCores(topology: seq<TopologyEntry>, num_sockets: nat)
    returns (socketRefCore: seq<int>, num_online_sockets: nat)
    requires forall i :: 0 <= i < |topology| && IsOnline(topology[i]) ==> 0 <= topology[i].socket_id < num_sockets
    ensures |socketRefCore| == num_sockets
    ensures forall s :: 0 <= s < num_sockets ==> socketRefCore[s] == LastCore(topology, s, |topology|)
    ensures forall s :: 0 <= s < num_sockets && socketRefCore[s] != -1 ==>
              && 0 <= socketRefCore[s] < |topology|
              && var e := topology[socketRefCore[s]]; e.os_id != -1 && e.core_id != -1 && e.socket_id == s
    ensures forall s, i :: 0 <= s < num_sockets && socketRefCore[s] < i < |topology| ==>
              var e := topology[i]; e.os_id == -1 || e.core_id == -1 || e.socket_id != s
    ensures num_online_sockets == OnlineSockets(socketRefCore, num_sockets)
    ensures num_online_sockets == |WithRefCore(socketRefCore, num_sockets)|
  {
    socketRefCore := seq(num_sockets, i => -1);
    for i := 0 to |topology|
      invariant |socketRefCore| == num_sockets
      invariant forall s :: 0 <= s < num_sockets ==> socketRefCore[s] == LastCore(topology, s, i)
    {
      if IsOnline(topology[i]) {
        socketRefCore := socketRefCore[topology[i].socket_id := i];
      }
    }
    num_online_sockets := 0;
    for s := 0 to num_sockets
      invariant num_online_sockets == OnlineSockets(socketRefCore, s)
    {
      if socketRefCore[s] != -1 {
        num_online_sockets := num_online_sockets + 1;
      }
    }
    OnlineSocketsCount(socketRefCore, num_sockets);
  }

  function WithRefCore(refCores: seq<int>, n: nat): set<nat>
    requires n <= |refCores|
  {
    set s: nat | s < n && refCores[s] != -1
  }

  lemma {:induction false} OnlineSocketsCount(refCores: seq<int>, n: nat)
    requires n <= |refCores|
    ensures OnlineSockets(refCores, n) == |WithRefCore(refCores, n)|
  {
    if n == 0 {
      assert WithRefCore(refCores, n) == {};
    } else {
      OnlineSocketsCount(refCores, n - 1);
      assert WithRefCore(refCores, n) == WithRefCore(refCores, n - 1) + if refCores[n - 1] != -1 then {n - 1} else {};
    }
  }

  lemma {:induction false} OnlineSocketsFull(refCores: seq<int>, n: nat)
    requires n <= |refCores|
    ensures OnlineSockets(refCores, n) <= n
    ensures OnlineSockets(refCores, n) == n <==> forall s :: 0 <= s < n ==> refCores[s] != -1
  {
    if n > 0 {
      OnlineSocketsFull(refCores, n - 1);
    }
  }

  /** After renumbering, every socket has a reference core, its highest-numbered online core, and all
      sockets count as online, if and only if any core is online at all. */
  method DiscoverSockets(topology: array<TopologyEntry>)
    returns (num_sockets: nat, socketRefCore: seq<int>, num_online_sockets: nat)
    modifies topology
    ensures exists keys :: Renumbered(old(topology[..]), topology[..], keys)
    ensures |socketRefCore| == num_sockets
    ensures forall s :: 0 <= s < num_sockets ==> socketRefCore[s] == LastCore(topology[..], s, topology.Length)
    ensures num_online_sockets == num_sockets <==> exists i :: 0 <= i < topology.Length && IsOnline(topology[i])
    ensures num_online_sockets == num_sockets <==> forall s :: 0 <= s < num_sockets ==> socketRefCore[s] != -1
  {
    ghost var keys;
    ghost var before := topology[..];
    num_sockets, keys := RenumberSockets(topology);
    RenumberingIsDense(before, topology[..], keys);
    socketRefCore, num_online_sockets := ChooseRefCores(topology[..], num_sockets);
    OnlineSocketsFull(socketRefCore, num_sockets);
    EverySocketHasCore(topology[..], keys, num_sockets, socketRefCore);
  }

  lemma EverySocketHasCore(after: seq<TopologyEntry>, keys: seq<int>, num_sockets: nat, socketRefCore: seq<int>)
    requires num_sockets == (if |keys| > 1 then |keys| else 1) && |socketRefCore| == num_sockets
    requires forall i :: 0 <= i < |after| && IsOnline(after[i]) ==> 0 <= after[i].socket_id < |keys|
    requires forall s :: 0 <= s < |keys| ==> HasOnlineCore(after, s)
    requires forall s :: 0 <= s < num_sockets ==> socketRefCore[s] == LastCore(after, s, |after|)
    ensures (forall s :: 0 <= s < num_sockets ==> socketRefCore[s] != -1)
            <==> exists i :: 0 <= i < |after| && IsOnline(after[i])
  {
    if exists i :: 0 <= i < |after| && IsOnline(after[i]) {
      forall s | 0 <= s < num_sockets ensures socketRefCore[s] != -1 {
        assert HasOnlineCore(after, s);
      }
    } else {
      assert socketRefCore[0] == -1;
    }
  }
}
