/** The topology domains built from CPUID leaf 1FH and the fields they slice out of an APIC ID. */
module TopologyDomains {

  const INVALID_DOMAIN_TYPE := 0
  const LOGICAL_PROCESSOR_DOMAIN := 1
  const CORE_DOMAIN := 2
  const SOCKET_PACKAGE_DOMAIN := 0xffff
  const TWO_TO_32: nat := 0x1_0000_0000

  function Pow2(n: nat): (r: nat)
    ensures r > 0
  {
    if n == 0 then 1 else 2 * Pow2(n - 1)
  }

  /** extract_bits_32: bits beg to end of x; reversed bounds are swapped, an end beyond 31 is 31. */
  function ExtractBits32(x: nat, beg: nat, end: nat): nat
    requires beg <= 31 || end <= 31
  {
    var lo := if beg <= end then beg else end;
    var hi := if beg <= end then end else beg;
    (x / Pow2(lo)) % Pow2((if hi > 31 then 31 else hi) - lo + 1)
  }

  lemma DoubleProduct(p: nat, q: nat)
    ensures p * (2 * q) == 2 * (p * q)
  {
  }

  lemma {:induction false} Pow2Add(a: nat, b: nat)
    ensures Pow2(a + b) == Pow2(a) * Pow2(b)
  {
    if b > 0 {
      Pow2Add(a, b - 1);
      DoubleProduct(Pow2(a), Pow2(b - 1));
    }
  }

  lemma Pow2Is32()
    ensures Pow2(32) == TWO_TO_32
  {
    assert Pow2(8) == 256;
    Pow2Add(8, 8);
    Pow2Add(16, 16);
  }

  /** The low bits and the next slice above them make up the longer low part. */
  lemma SliceStep(x: nat, a: nat, b: nat)
    requires a <= b
    ensures x % Pow2(a) + ((x / Pow2(a)) % Pow2(b - a)) * Pow2(a) == x % Pow2(b)
  {
    Pow2Add(a, b - a);
    DivModStep(x, Pow2(a), Pow2(b - a));
  }

  lemma DivModStep(x: nat, p: nat, q: nat)
    requires p > 0 && q > 0
    ensures x % p + ((x / p) % q) * p == x % (p * q)
  {
    var y := x / p;
    var low, mid, high := x % p, y % q, y / q;
    assert x == y * p + low;
    assert y == high * q + mid;
    SplitProduct(high, q, mid, p);
    BelowProduct(low, mid, p, q);
    ModUnique(x, p * q, high, mid * p + low);
  }

  lemma SplitProduct(high: nat, q: nat, mid: nat, p: nat)
    ensures (high * q + mid) * p == high * (p * q) + mid * p
  {
  }

  lemma BelowProduct(low: nat, mid: nat, p: nat, q: nat)
    requires low < p && mid < q
    ensures 0 <= mid * p + low < p * q
  {
    assert (q - 1 - mid) * p >= 0;
    assert p * q == (q - 1 - mid) * p + mid * p + p;
  }

  lemma {:induction false} MulAtLeast(q: nat, m: nat)
    requires q >= 1
    ensures q * m >= m
  {
    if q > 1 {
      MulAtLeast(q - 1, m);
    }
  }

  lemma ModUnique(x: nat, m: nat, k: nat, r: nat)
    requires m > 0 && r < m && x == k * m + r
    ensures x % m == r && x / m == k
  {
    var d, e := x / m, x % m;
    assert (k - d) * m == k * m - d * m == e - r;
    assert (d - k) * m == d * m - k * m == r - e;
    if k > d {
      MulAtLeast(k - d, m);
    } else if k < d {
      MulAtLeast(d - k, m);
    }
  }

  // ---------------------------------------------------------------------------------------
  // The domain list

  /** What one subleaf of leaf 1FH reports: the domain type (ECX bits 15:8) and the shift to the
      next domain (EAX bits 4:0). */
  datatype SubLeaf = SubLeaf(domainType: nat, shift: nat)

  predicate IsSubLeaf(s: SubLeaf) {
    s.domainType <= 255 && s.shift <= 31
  }

  datatype Domain = Domain(domainType: nat, levelShift: nat, nextLevelShift: nat)

  /** The subleaves up to the first invalid one. */
  function ValidPrefix(leaf: seq<SubLeaf>): (n: nat)
    ensures n <= |leaf|
  {
    if leaf == [] || leaf[0].domainType == INVALID_DOMAIN_TYPE then 0 else 1 + ValidPrefix(leaf[1..])
  }

  lemma {:induction false} ValidPrefixStops(leaf: seq<SubLeaf>, n: nat)
    requires n <= |leaf|
    requires forall i :: 0 <= i < n ==> leaf[i].domainType != INVALID_DOMAIN_TYPE
    requires n == |leaf| || leaf[n].domainType == INVALID_DOMAIN_TYPE
    ensures ValidPrefix(leaf) == n
  {
    if n > 0 {
      ValidPrefixStops(leaf[1..], n - 1);
    }
  }

  function ReportedAt(leaf: seq<SubLeaf>, i: nat): Domain
    requires i < |leaf|
  {
    Domain(leaf[i].domainType, if i == 0 then 0 else leaf[i - 1].shift, leaf[i].shift)
  }

  /** Domain i of the list that the valid subleaves describe; after the last comes the package. */
  function DomainAt(leaf: seq<SubLeaf>, i: nat): Domain
    requires i <= ValidPrefix(leaf)
  {
    if i < ValidPrefix(leaf) then ReportedAt(leaf, i)
    else Domain(SOCKET_PACKAGE_DOMAIN, if i == 0 then 0 else leaf[i - 1].shift, 32)
  }

  function DomainList(leaf: seq<SubLeaf>): seq<Domain> {
    var n := ValidPrefix(leaf);
    if n == 0 then [] else seq(n + 1, i requires 0 <= i < n + 1 => DomainAt(leaf, i))
  }

  /** The loop over the subleaves, and the package domain appended to what it found. A subleaf past
      the end of the list reads as invalid. */
  method BuildTopologyDomains(leaf: seq<SubLeaf>) returns (topologyDomains: seq<Domain>)
    ensures topologyDomains == DomainList(leaf)
  {
    topologyDomains := [];
    var subleaf := 0;
    while subleaf < |leaf| && leaf[subleaf].domainType != INVALID_DOMAIN_TYPE
      invariant 0 <= subleaf <= |leaf| && |topologyDomains| == subleaf
      invariant forall i :: 0 <= i < subleaf ==> leaf[i].domainType != INVALID_DOMAIN_TYPE
      invariant forall i :: 0 <= i < subleaf ==> topologyDomains[i] == ReportedAt(leaf, i)
    {
      var levelShift := if topologyDomains == [] then 0 else topologyDomains[subleaf - 1].nextLevelShift;
      topologyDomains := topologyDomains + [Domain(leaf[subleaf].domainType, levelShift, leaf[subleaf].shift)];
      subleaf := subleaf + 1;
    }
    ValidPrefixStops(leaf, subleaf);
    if topologyDomains != [] {
      ghost var reported := topologyDomains;
      topologyDomains :=
        topologyDomains + [Domain(SOCKET_PACKAGE_DOMAIN, topologyDomains[subleaf - 1].nextLevelShift, 32)];
      forall i | 0 <= i < |topologyDomains| ensures topologyDomains[i] == DomainAt(leaf, i) {
        assert i < subleaf ==> topologyDomains[i] == reported[i];
      }
    }
  }

  /** `shift - 1` in 32-bit unsigned arithmetic. */
  function Below(shift: nat): nat {
    (shift - 1) % TWO_TO_32
  }

  /** getID: the field of an APIC ID that belongs to a domain. */
  function Field(d: Domain, apicId: nat): nat
    requires d.levelShift <= 31
  {
    ExtractBits32(apicId, d.levelShift, Below(d.nextLevelShift))
  }

  /** A domain's field shifted back to its place. */
  function Placed(d: Domain, apicId: nat): nat
    requires d.levelShift <= 31
  {
    Times(Field(d, apicId), Pow2(d.levelShift))
  }

  function Times(a: nat, b: nat): nat {
    a * b
  }

  /** All fields of the first n domains, each shifted back to its place, added up. */
  function Rebuild(ds: seq<Domain>, apicId: nat, n: nat): nat
    requires n <= |ds| && forall i :: 0 <= i < |ds| ==> ds[i].levelShift <= 31
  {
    if n == 0 then 0 else
      Rebuild(ds, apicId, n - 1) + Placed(ds[n - 1], apicId)
  }

  predicate NonDecreasing(leaf: seq<SubLeaf>) {
    && (forall i :: 0 <= i < |leaf| ==> IsSubLeaf(leaf[i]))
    && (forall i :: 0 < i < ValidPrefix(leaf) ==> leaf[i - 1].shift <= leaf[i].shift)
  }

  /** Every domain that leaf 1FH reports is at least one bit wide. */
  predicate NoEmptyDomain(leaf: seq<SubLeaf>) {
    forall i :: 0 <= i < ValidPrefix(leaf) ==> DomainAt(leaf, i).levelShift < DomainAt(leaf, i).nextLevelShift
  }

  lemma DomainShifts(leaf: seq<SubLeaf>, i: nat)
    requires NonDecreasing(leaf) && 0 < ValidPrefix(leaf) && i <= ValidPrefix(leaf)
    ensures var d := DomainAt(leaf, i); d.levelShift <= 31 && d.levelShift <= d.nextLevelShift <= 32
    ensures i > 0 ==> DomainAt(leaf, i).levelShift == DomainAt(leaf, i - 1).nextLevelShift
  {
  }

  /** The fields of the first n domains hold at least the APIC ID's bits below the n-th shift, and
      exactly those if none of the domains is empty. */
  lemma {:induction false} RebuildPrefix(leaf: seq<SubLeaf>, apicId: nat, n: nat)
    requires NonDecreasing(leaf) && 0 < ValidPrefix(leaf) && 0 < n <= ValidPrefix(leaf) + 1
    ensures var ds := DomainList(leaf);
            && (forall i :: 0 <= i < |ds| ==> ds[i].levelShift <= 31)
            && Rebuild(ds, apicId, n) >= apicId % Pow2(ds[n - 1].nextLevelShift)
            && ((forall i :: 0 <= i < n ==> ds[i].levelShift < ds[i].nextLevelShift) ==>
                  Rebuild(ds, apicId, n) == apicId % Pow2(ds[n - 1].nextLevelShift))
  {
    var ds := DomainList(leaf);
    forall i | 0 <= i < |ds| ensures ds[i].levelShift <= 31 && ds[i].levelShift <= ds[i].nextLevelShift <= 32 {
      DomainShifts(leaf, i);
    }
    var d := ds[n - 1];
    if n > 1 {
      RebuildPrefix(leaf, apicId, n - 1);
      DomainShifts(leaf, n - 1);
    }
    FieldBelow(d, apicId);
  }

  /** A field's value, shifted back, fills the gap between its two shifts. */
  lemma FieldBelow(d: Domain, apicId: nat)
    requires d.levelShift <= 31 && d.levelShift <= d.nextLevelShift <= 32
    ensures apicId % Pow2(d.levelShift) + Field(d, apicId) * Pow2(d.levelShift) >= apicId % Pow2(d.nextLevelShift)
    ensures d.levelShift < d.nextLevelShift ==>
              apicId % Pow2(d.levelShift) + Field(d, apicId) * Pow2(d.levelShift) == apicId % Pow2(d.nextLevelShift)
  {
    if d.levelShift < d.nextLevelShift {
      SliceStep(apicId, d.levelShift, d.nextLevelShift);
    } else {
      assert Field(d, apicId) * Pow2(d.levelShift) >= 0;
    }
  }

  /** The fields of a domain list add up to the APIC ID, for every 32-bit APIC ID, if and only if no
      domain is empty: the field of an empty domain is read with its bounds swapped and is not 0. */
  lemma FieldsTileApicId(leaf: seq<SubLeaf>)
    requires NonDecreasing(leaf) && 0 < ValidPrefix(leaf)
    ensures var ds := DomainList(leaf);
            && (forall i :: 0 <= i < |ds| ==> ds[i].levelShift <= 31)
            && (NoEmptyDomain(leaf) <==> forall id :: 0 <= id < TWO_TO_32 ==> Rebuild(ds, id, |ds|) == id)
  {
    var ds := DomainList(leaf);
    var n := ValidPrefix(leaf);
    forall i | 0 <= i < |ds| ensures ds[i].levelShift <= 31 {
      DomainShifts(leaf, i);
    }
    Pow2Is32();
    if NoEmptyDomain(leaf) {
      forall id | 0 <= id < TWO_TO_32 ensures Rebuild(ds, id, |ds|) == id {
        RebuildPrefix(leaf, id, n + 1);
        DomainShifts(leaf, n);
        Small(id, TWO_TO_32);
      }
    } else {
      var e :| 0 <= e < n && DomainAt(leaf, e).levelShift >= DomainAt(leaf, e).nextLevelShift;
      var allOnes := TWO_TO_32 - 1;
      EmptyDomainExcess(leaf, e, n + 1);
      DomainShifts(leaf, n);
      Small(allOnes, TWO_TO_32);
      assert Rebuild(ds, allOnes, |ds|) != allOnes;
    }
  }

  lemma Small(x: nat, m: nat)
    requires x < m
    ensures x % m == x
  {
  }

  /** With all 32 bits set, an empty domain e makes the fields add up to too much. */
  lemma {:induction false} EmptyDomainExcess(leaf: seq<SubLeaf>, e: nat, n: nat)
    requires NonDecreasing(leaf) && e < ValidPrefix(leaf) && e < n <= ValidPrefix(leaf) + 1
    requires DomainAt(leaf, e).levelShift >= DomainAt(leaf, e).nextLevelShift
    ensures var ds := DomainList(leaf);
            && (forall i :: 0 <= i < |ds| ==> ds[i].levelShift <= 31)
            && Rebuild(ds, TWO_TO_32 - 1, n) > (TWO_TO_32 - 1) % Pow2(ds[n - 1].nextLevelShift)
  {
    var ds := DomainList(leaf);
    var allOnes := TWO_TO_32 - 1;
    forall i | 0 <= i < |ds| ensures ds[i].levelShift <= 31 && ds[i].levelShift <= ds[i].nextLevelShift <= 32 {
      DomainShifts(leaf, i);
    }
    var d := ds[n - 1];
    if n - 1 > e {
      EmptyDomainExcess(leaf, e, n - 1);
      DomainShifts(leaf, n - 1);
      FieldBelow(d, allOnes);
    } else {
      if n > 1 {
        RebuildPrefix(leaf, allOnes, n - 1);
        DomainShifts(leaf, n - 1);
      }
      EmptyFieldOfOnes(d);
      MulAtLeast(Field(d, allOnes), Pow2(d.levelShift));
    }
  }

  /** An empty domain reads two bits around its shift, or the whole APIC ID if its shift is 0. */
  lemma EmptyFieldOfOnes(d: Domain)
    requires d.levelShift <= 31 && d.nextLevelShift == d.levelShift
    ensures Field(d, TWO_TO_32 - 1) >= 1
  {
    var s := d.levelShift;
    Pow2Is32();
    assert Pow2(0) == 1 && Pow2(2) == 4;
    hide Pow2;
    if s == 0 {
      assert Field(d, TWO_TO_32 - 1) == ((TWO_TO_32 - 1) / Pow2(0)) % Pow2(32);
    } else {
      OnesAbove(s - 1);
      assert Field(d, TWO_TO_32 - 1) == ((TWO_TO_32 - 1) / Pow2(s - 1)) % Pow2(2);
    }
  }

  /** Shifting 32 ones right by k <= 30 leaves a number that ends in two ones. */
  lemma OnesAbove(k: nat)
    requires k <= 30
    ensures ((TWO_TO_32 - 1) / Pow2(k)) % 4 == 3
  {
    Pow2Is32();
    Pow2Add(k, 32 - k);
    var p, q, r := Pow2(k), Pow2(32 - k), Pow2(30 - k);
    assert p * q == TWO_TO_32 && q == 4 * r;
    hide Pow2;
    OnesShifted(p, q);
    ModUnique(q - 1, 4, r - 1, 3);
  }

  lemma OnesShifted(p: nat, q: nat)
    requires p > 0 && q > 0
    ensures p * q >= 1 && (p * q - 1) / p == q - 1
  {
    MulAtLeast(q, p);
    assert p * q - 1 == (q - 1) * p + (p - 1);
    ModUnique(p * q - 1, p, q - 1, p - 1);
  }

  predicate IsEmpty(d: Domain) {
    d.levelShift >= d.nextLevelShift
  }

  /** What the empty ones of the first n domains add to an APIC ID. */
  function Excess(ds: seq<Domain>, apicId: nat, n: nat): nat
    requires n <= |ds| && forall i :: 0 <= i < |ds| ==> ds[i].levelShift <= 31
  {
    if n == 0 then 0
    else
      Excess(ds, apicId, n - 1) + if IsEmpty(ds[n - 1]) then Placed(ds[n - 1], apicId) else 0
  }

  lemma {:induction false} RebuildExcess(leaf: seq<SubLeaf>, apicId: nat, n: nat)
    requires NonDecreasing(leaf) && 0 < ValidPrefix(leaf) && 0 < n <= ValidPrefix(leaf) + 1
    ensures var ds := DomainList(leaf);
            && (forall i :: 0 <= i < |ds| ==> ds[i].levelShift <= 31)
            && Rebuild(ds, apicId, n) == apicId % Pow2(ds[n - 1].nextLevelShift) + Excess(ds, apicId, n)
  {
    var ds := DomainList(leaf);
    forall i | 0 <= i < |ds| ensures ds[i].levelShift <= 31 && ds[i].levelShift <= ds[i].nextLevelShift <= 32 {
      DomainShifts(leaf, i);
    }
    if n > 1 {
      RebuildExcess(leaf, apicId, n - 1);
      DomainShifts(leaf, n - 1);
    }
    FieldBelow(ds[n - 1], apicId);
  }

  lemma {:induction false} NoExcess(ds: seq<Domain>, apicId: nat, n: nat)
    requires n <= |ds| && forall i :: 0 <= i < |ds| ==> ds[i].levelShift <= 31
    ensures Excess(ds, apicId, n) == 0 <==> forall i :: 0 <= i < n && IsEmpty(ds[i]) ==> Field(ds[i], apicId) == 0
  {
    hide Field, Pow2;
    if n > 0 {
      NoExcess(ds, apicId, n - 1);
      if Field(ds[n - 1], apicId) > 0 {
        MulAtLeast(Field(ds[n - 1], apicId), Pow2(ds[n - 1].levelShift));
      }
    }
  }

  /** For each APIC ID by itself: its fields add up to it if and only if every empty domain reads 0 in it. */
  lemma FieldsTileThisApicId(leaf: seq<SubLeaf>, apicId: nat)
    requires NonDecreasing(leaf) && 0 < ValidPrefix(leaf) && apicId < TWO_TO_32
    ensures var ds := DomainList(leaf);
            && (forall i :: 0 <= i < |ds| ==> ds[i].levelShift <= 31)
            && (Rebuild(ds, apicId, |ds|) == apicId <==>
                  forall i :: 0 <= i < |ds| && IsEmpty(ds[i]) ==> Field(ds[i], apicId) == 0)
  {
    var ds := DomainList(leaf);
    RebuildExcess(leaf, apicId, |ds|);
    Pow2Is32();
    Small(apicId, TWO_TO_32);
    NoExcess(ds, apicId, |ds|);
  }

  /** An empty domain at shift s reads 0 if bits s - 1 and s are both clear; at shift 0 it reads the whole
      APIC ID. */
  lemma EmptyFieldZero(d: Domain, apicId: nat)
    requires d.levelShift <= 31 && d.nextLevelShift == d.levelShift && apicId < TWO_TO_32
    ensures Field(d, apicId) == 0 <==>
            if d.levelShift == 0 then apicId == 0 else (apicId / Pow2(d.levelShift - 1)) % 4 == 0
  {
    if d.levelShift == 0 {
      WholeSlice(apicId);
    } else {
      assert Below(d.levelShift) == d.levelShift - 1;
      assert Pow2(2) == 4;
    }
  }

  /** A leaf as without hyper-threading: the logical processor domain is empty, sixteen cores follow. */
  const ONE_THREAD_PER_CORE: seq<SubLeaf> := [SubLeaf(LOGICAL_PROCESSOR_DOMAIN, 0), SubLeaf(CORE_DOMAIN, 4)]

  /** There core 1 has APIC ID 1, which the thread field reads as well: the fields add up to 2. */
  lemma CoreReadTwice()
    ensures var ds := DomainList(ONE_THREAD_PER_CORE);
            && NonDecreasing(ONE_THREAD_PER_CORE) && |ds| == 3
            && ds[0].levelShift == 0 && ds[1].levelShift == 0 && ds[2].levelShift == 4
            && Field(ds[0], 1) == 1 && Field(ds[1], 1) == 1 && Field(ds[2], 1) == 0
            && Rebuild(ds, 1, 3) == 2
  {
    var leaf := ONE_THREAD_PER_CORE;
    ValidPrefixStops(leaf, 2);
    var ds := DomainList(leaf);
    assert ds == [Domain(LOGICAL_PROCESSOR_DOMAIN, 0, 0), Domain(CORE_DOMAIN, 0, 4),
                  Domain(SOCKET_PACKAGE_DOMAIN, 4, 32)];
    FieldsOfOne();
    SmallestRebuild(ds, 1);
    hide Field;
    assert Pow2(0) == 1;
  }

  lemma FieldsOfOne()
    ensures Field(Domain(LOGICAL_PROCESSOR_DOMAIN, 0, 0), 1) == 1
    ensures Field(Domain(CORE_DOMAIN, 0, 4), 1) == 1
    ensures Field(Domain(SOCKET_PACKAGE_DOMAIN, 4, 32), 1) == 0
  {
    BelowShift(0);
    BelowShift(4);
    BelowShift(32);
    WholeSlice(1);
    assert Pow2(0) == 1 && Pow2(4) == 16;
    hide Pow2, Below;
    Small(1, 16);
    Small(0, Pow2(28));
  }

  lemma SmallestRebuild(ds: seq<Domain>, apicId: nat)
    requires |ds| == 3 && forall i :: 0 <= i < |ds| ==> ds[i].levelShift <= 31
    ensures Rebuild(ds, apicId, 3) == Placed(ds[0], apicId) + Placed(ds[1], apicId) + Placed(ds[2], apicId)
  {
    assert Rebuild(ds, apicId, 1) == Rebuild(ds, apicId, 0) + Placed(ds[0], apicId);
  }

  // ---------------------------------------------------------------------------------------
  // Identifiers

  /** The map from domain types to domains; of domains with the same type the last one counts. */
  function Find(ds: seq<Domain>, domainType: nat): (r: int)
    ensures -1 <= r < |ds|
  {
    if ds == [] then -1
    else if ds[|ds| - 1].domainType == domainType then |ds| - 1
    else Find(ds[..|ds| - 1], domainType)
  }

  lemma {:induction false} FindUnique(ds: seq<Domain>, domainType: nat, i: nat)
    requires i < |ds| && ds[i].domainType == domainType
    requires forall j :: i < j < |ds| ==> ds[j].domainType != domainType
    ensures Find(ds, domainType) == i
  {
    if i < |ds| - 1 {
      FindUnique(ds[..|ds| - 1], domainType, i);
    }
  }

  datatype Ids = Ids(threadId: nat, coreId: nat, socketId: nat, socketUniqueCoreId: nat)

  predicate HasCore(ds: seq<Domain>) {
    Find(ds, CORE_DOMAIN) != -1 && Find(ds, SOCKET_PACKAGE_DOMAIN) != -1
  }

  function GetId(ds: seq<Domain>, apicId: nat, domainType: nat): nat
    requires forall i :: 0 <= i < |ds| ==> ds[i].levelShift <= 31
  {
    if Find(ds, domainType) == -1 then 0 else Field(ds[Find(ds, domainType)], apicId)
  }

  /** populateEntry; without a core domain the original throws. */
  function PopulateIds(ds: seq<Domain>, apicId: nat): Ids
    requires HasCore(ds) && forall i :: 0 <= i < |ds| ==> ds[i].levelShift <= 31
  {
    var core, package := ds[Find(ds, CORE_DOMAIN)], ds[Find(ds, SOCKET_PACKAGE_DOMAIN)];
    Ids(GetId(ds, apicId, LOGICAL_PROCESSOR_DOMAIN), GetId(ds, apicId, CORE_DOMAIN),
        GetId(ds, apicId, SOCKET_PACKAGE_DOMAIN),
        ExtractBits32(apicId, core.levelShift, Below(package.levelShift)))
  }

  /** The logical processor domain comes first, the core domain right after it, neither appears again,
      and CPUID's 8-bit types never collide with the package type. */
  predicate CoreFollowsThread(leaf: seq<SubLeaf>) {
    && ValidPrefix(leaf) >= 2
    && leaf[0].domainType == LOGICAL_PROCESSOR_DOMAIN && leaf[1].domainType == CORE_DOMAIN
    && forall i :: 2 <= i < ValidPrefix(leaf) ==>
         leaf[i].domainType != LOGICAL_PROCESSOR_DOMAIN && leaf[i].domainType != CORE_DOMAIN
  }

  lemma {:induction false} ShiftsGrow(leaf: seq<SubLeaf>, i: nat)
    requires NonDecreasing(leaf) && 1 <= i < ValidPrefix(leaf)
    ensures leaf[0].shift <= leaf[i].shift
    ensures NoEmptyDomain(leaf) ==> leaf[0].shift < leaf[i].shift
  {
    assert DomainAt(leaf, i) == ReportedAt(leaf, i);
    if i > 1 {
      ShiftsGrow(leaf, i - 1);
    }
  }

  lemma {:induction false} FindDomains(leaf: seq<SubLeaf>)
    requires CoreFollowsThread(leaf) && forall i :: 0 <= i < |leaf| ==> IsSubLeaf(leaf[i])
    ensures var ds := DomainList(leaf);
            && Find(ds, LOGICAL_PROCESSOR_DOMAIN) == 0 && Find(ds, CORE_DOMAIN) == 1
            && Find(ds, SOCKET_PACKAGE_DOMAIN) == ValidPrefix(leaf)
            && ds[0] == ReportedAt(leaf, 0) && ds[1] == ReportedAt(leaf, 1)
  {
    var ds := DomainList(leaf);
    var n := ValidPrefix(leaf);
    assert ds[0] == ReportedAt(leaf, 0) && ds[1] == ReportedAt(leaf, 1);
    assert forall i :: 2 <= i < n ==> ds[i] == ReportedAt(leaf, i);
    assert ds[n].domainType == SOCKET_PACKAGE_DOMAIN;
    hide Find;
    FindUnique(ds, LOGICAL_PROCESSOR_DOMAIN, 0);
    FindUnique(ds, CORE_DOMAIN, 1);
    FindUnique(ds, SOCKET_PACKAGE_DOMAIN, n);
  }

  lemma {:induction false} AllShiftsSmall(leaf: seq<SubLeaf>)
    requires NonDecreasing(leaf) && 0 < ValidPrefix(leaf)
    ensures forall i :: 0 <= i < |DomainList(leaf)| ==> DomainList(leaf)[i].levelShift <= 31
  {
    forall i | 0 <= i < |DomainList(leaf)| ensures DomainList(leaf)[i].levelShift <= 31 {
      DomainShifts(leaf, i);
    }
  }

  /** What the three numbers are, whatever the shifts. */
  lemma {:induction false} IdsAreSlices(leaf: seq<SubLeaf>, apicId: nat)
    requires NonDecreasing(leaf) && CoreFollowsThread(leaf) && apicId < TWO_TO_32
    ensures HasCore(DomainList(leaf))
    ensures forall i :: 0 <= i < |DomainList(leaf)| ==> DomainList(leaf)[i].levelShift <= 31
    ensures var ids := PopulateIds(DomainList(leaf), apicId);
            var a, p := leaf[0].shift, leaf[ValidPrefix(leaf) - 1].shift;
            && a <= p <= 31
            && ids.threadId == (if a == 0 then apicId else ExtractBits32(apicId, 0, a - 1))
            && (a < p ==> ids.socketUniqueCoreId == ExtractBits32(apicId, a, p - 1))
            && ids.socketId == ExtractBits32(apicId, p, 31)
  {
    var ds, n := DomainList(leaf), ValidPrefix(leaf);
    AllShiftsSmall(leaf);
    FindDomains(leaf);
    ShiftsGrow(leaf, n - 1);
    var a, p := leaf[0].shift, leaf[n - 1].shift;
    assert ds[0].levelShift == 0 && ds[0].nextLevelShift == a == ds[1].levelShift;
    assert ds[n] == DomainAt(leaf, n) && ds[n].levelShift == p && ds[n].nextLevelShift == 32;
    hide Pow2, ExtractBits32, Below, Find, NonDecreasing, CoreFollowsThread, DomainList, ValidPrefix;
    BelowShift(a);
    BelowShift(p);
    BelowShift(32);
    WholeSlice(apicId);
  }

  lemma BelowShift(shift: nat)
    requires shift <= 32
    ensures Below(shift) == if shift == 0 then TWO_TO_32 - 1 else shift - 1
  {
  }

  lemma WholeSlice(x: nat)
    requires x < TWO_TO_32
    ensures ExtractBits32(x, 0, TWO_TO_32 - 1) == x
  {
    Pow2Is32();
    assert Pow2(0) == 1;
    Small(x, TWO_TO_32);
  }

  /** If the thread and core fields are not empty, thread, socket-unique core and socket numbers put
      together give back the APIC ID. */
  lemma {:induction false} IdsRebuildApicId(leaf: seq<SubLeaf>, apicId: nat)
    requires NonDecreasing(leaf) && CoreFollowsThread(leaf) && apicId < TWO_TO_32
    requires 0 < leaf[0].shift < leaf[ValidPrefix(leaf) - 1].shift
    ensures HasCore(DomainList(leaf))
    ensures forall i :: 0 <= i < |DomainList(leaf)| ==> DomainList(leaf)[i].levelShift <= 31
    ensures var ids := PopulateIds(DomainList(leaf), apicId);
            apicId == ids.threadId + ids.socketUniqueCoreId * Pow2(leaf[0].shift)
                      + ids.socketId * Pow2(leaf[ValidPrefix(leaf) - 1].shift)
  {
    hide Pow2, ExtractBits32, PopulateIds, NonDecreasing, CoreFollowsThread;
    IdsAreSlices(leaf, apicId);
    ThreeSlices(apicId, leaf[0].shift, leaf[ValidPrefix(leaf) - 1].shift);
  }

  lemma {:induction false} CoreIdIsSlice(leaf: seq<SubLeaf>, apicId: nat)
    requires NonDecreasing(leaf) && CoreFollowsThread(leaf) && leaf[0].shift < leaf[1].shift
    ensures HasCore(DomainList(leaf))
    ensures forall i :: 0 <= i < |DomainList(leaf)| ==> DomainList(leaf)[i].levelShift <= 31
    ensures PopulateIds(DomainList(leaf), apicId).coreId == ExtractBits32(apicId, leaf[0].shift, leaf[1].shift - 1)
  {
    AllShiftsSmall(leaf);
    FindDomains(leaf);
    hide Pow2, ExtractBits32, Below, Find, DomainList, ValidPrefix;
    BelowShift(leaf[1].shift);
  }

  /** Where the thread and core domains are not empty, each number is its field of the APIC ID: the quotient by
      the power of two at which the field starts, modulo the field's range. */
  lemma {:induction false} IdsAreFields(leaf: seq<SubLeaf>, apicId: nat)
    requires NonDecreasing(leaf) && CoreFollowsThread(leaf) && apicId < TWO_TO_32
    requires 0 < leaf[0].shift < leaf[1].shift
    ensures HasCore(DomainList(leaf))
    ensures forall i :: 0 <= i < |DomainList(leaf)| ==> DomainList(leaf)[i].levelShift <= 31
    ensures var ids := PopulateIds(DomainList(leaf), apicId);
            var a, b, p := leaf[0].shift, leaf[1].shift, leaf[ValidPrefix(leaf) - 1].shift;
            && b <= p
            && ids.threadId == apicId % Pow2(a)
            && ids.coreId == (apicId / Pow2(a)) % Pow2(b - a)
            && ids.socketUniqueCoreId == (apicId / Pow2(a)) % Pow2(p - a)
            && ids.socketId == apicId / Pow2(p)
  {
    var a, b, p := leaf[0].shift, leaf[1].shift, leaf[ValidPrefix(leaf) - 1].shift;
    ShiftsFrom(leaf, ValidPrefix(leaf) - 1);
    hide Pow2, ExtractBits32, PopulateIds, NonDecreasing, CoreFollowsThread, DomainList, ValidPrefix;
    IdsAreSlices(leaf, apicId);
    CoreIdIsSlice(leaf, apicId);
    SlicesAreFields(apicId, a, b, p);
  }

  lemma SlicesAreFields(x: nat, a: nat, b: nat, p: nat)
    requires x < TWO_TO_32 && 0 < a < b <= p <= 31
    ensures ExtractBits32(x, 0, a - 1) == x % Pow2(a)
    ensures ExtractBits32(x, a, b - 1) == (x / Pow2(a)) % Pow2(b - a)
    ensures ExtractBits32(x, a, p - 1) == (x / Pow2(a)) % Pow2(p - a)
    ensures ExtractBits32(x, p, 31) == x / Pow2(p)
  {
    hide Pow2, ExtractBits32;
    LowSlice(x, a);
    SliceIs(x, a, b);
    SliceIs(x, a, p);
    SliceIs(x, p, 32);
    HighSlice(x, p);
  }

  lemma {:induction false} ShiftsFrom(leaf: seq<SubLeaf>, i: nat)
    requires NonDecreasing(leaf) && 1 <= i < ValidPrefix(leaf)
    ensures leaf[1].shift <= leaf[i].shift
  {
    if i > 1 {
      ShiftsFrom(leaf, i - 1);
    }
  }

  lemma HighSlice(x: nat, p: nat)
    requires x < TWO_TO_32 && p <= 32
    ensures (x / Pow2(p)) % Pow2(32 - p) == x / Pow2(p)
  {
    hide Pow2;
    Pow2Is32();
    Pow2Add(p, 32 - p);
    QuotientBelow(x, Pow2(p), Pow2(32 - p));
  }

  lemma QuotientBelow(x: nat, p: nat, q: nat)
    requires p > 0 && x < p * q
    ensures (x / p) % q == x / p
  {
    var d := x / p;
    assert x == p * d + x % p;
    TimesMonotone(p, q, d);
    Small(d, q);
  }

  lemma TimesMonotone(p: nat, q: nat, d: nat)
    ensures q <= d ==> p * q <= p * d
  {
    if q <= d {
      assert p * d == p * q + p * (d - q);
    }
  }

  /** If the core domain directly follows the logical processor domain, the three numbers determine the
      APIC ID, even when domains are empty. */
  lemma {:induction false} IdsDetermineApicId(leaf: seq<SubLeaf>, x: nat, y: nat)
    requires NonDecreasing(leaf) && CoreFollowsThread(leaf) && x < TWO_TO_32 && y < TWO_TO_32
    ensures HasCore(DomainList(leaf))
    ensures forall i :: 0 <= i < |DomainList(leaf)| ==> DomainList(leaf)[i].levelShift <= 31
    ensures var i, j := PopulateIds(DomainList(leaf), x), PopulateIds(DomainList(leaf), y);
            i.threadId == j.threadId && i.socketUniqueCoreId == j.socketUniqueCoreId && i.socketId == j.socketId
            ==> x == y
  {
    hide Pow2, ExtractBits32, PopulateIds, NonDecreasing, CoreFollowsThread;
    IdsAreSlices(leaf, x);
    IdsAreSlices(leaf, y);
    var a, p := leaf[0].shift, leaf[ValidPrefix(leaf) - 1].shift;
    if 0 < a < p {
      ThreeSlices(x, a, p);
      ThreeSlices(y, a, p);
    } else if 0 < a {
      TwoSlices(x, a);
      TwoSlices(y, a);
    }
  }

  lemma SliceIs(x: nat, a: nat, b: nat)
    requires a < b <= 32
    ensures ExtractBits32(x, a, b - 1) == (x / Pow2(a)) % Pow2(b - a)
  {
  }

  lemma LowSlice(x: nat, a: nat)
    requires 0 < a <= 31
    ensures ExtractBits32(x, 0, a - 1) == x % Pow2(a)
  {
    SliceIs(x, 0, a);
    assert Pow2(0) == 1;
  }

  lemma AllBits(x: nat)
    requires x < TWO_TO_32
    ensures x % Pow2(32) == x
  {
    Pow2Is32();
    Small(x, TWO_TO_32);
  }

  lemma TwoSlices(x: nat, a: nat)
    requires 0 < a <= 31 && x < TWO_TO_32
    ensures x == ExtractBits32(x, 0, a - 1) + ExtractBits32(x, a, 31) * Pow2(a)
  {
    hide Pow2, ExtractBits32;
    LowSlice(x, a);
    SliceIs(x, a, 32);
    SliceStep(x, a, 32);
    AllBits(x);
  }

  lemma ThreeSlices(x: nat, a: nat, p: nat)
    requires 0 < a < p <= 31 && x < TWO_TO_32
    ensures x == ExtractBits32(x, 0, a - 1) + ExtractBits32(x, a, p - 1) * Pow2(a) + ExtractBits32(x, p, 31) * Pow2(p)
  {
    hide Pow2, ExtractBits32;
    LowSlice(x, a);
    SliceIs(x, a, p);
    SliceIs(x, p, 32);
    SliceStep(x, a, p);
    SliceStep(x, p, 32);
    AllBits(x);
  }
}
