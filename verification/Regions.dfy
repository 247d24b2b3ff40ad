/**
 Guest address translation: the first-match scans over the region table that turn a
 guest-physical or a QEMU-virtual address into an address of the backend process.
 */
module Regions {
  import opened Wrappers
  import opened Words

  datatype Region = Region(gpa: nat, size: nat, qva: nat, mmapOffset: nat, mmapAddr: nat)

  /** The two address spaces the table translates from. */
  datatype Space = GuestPhysical | QemuVirtual

  function Base(r: Region, s: Space): nat {
    match s
    case GuestPhysical => r.gpa
    case QemuVirtual => r.qva
  }

  /** The scan's test; the end of the region is computed in 64 bits. */
  predicate Covers(r: Region, s: Space, addr: nat) {
    Base(r, s) <= addr < (Base(r, s) + r.size) % W64
  }

  function HostOf(r: Region, s: Space, addr: nat): nat {
    (addr - Base(r, s) + r.mmapAddr + r.mmapOffset) % W64
  }

  /** First match; None is the failed assertion at the end of the scan. */
  function Translate(regions: seq<Region>, s: Space, addr: nat): Option<nat> {
    if regions == [] then None
    else if Covers(regions[0], s, addr) then Some(HostOf(regions[0], s, addr))
    else Translate(regions[1..], s, addr)
  }

  function HostStart(r: Region): nat {
    r.mmapAddr + r.mmapOffset
  }

  predicate WellFormed(r: Region) {
    r.gpa + r.size < W64 && r.qva + r.size < W64 && HostStart(r) + r.size < W64
  }

  predicate Apart(a: nat, b: nat, sizeA: nat, sizeB: nat) {
    a + sizeA <= b || b + sizeB <= a
  }

  predicate Disjoint(r: Region, t: Region) {
    && Apart(r.gpa, t.gpa, r.size, t.size)
    && Apart(r.qva, t.qva, r.size, t.size)
    && Apart(HostStart(r), HostStart(t), r.size, t.size)
  }

  /** A table as the memory-table message sets it up: regions and their mappings are disjoint. */
  ghost predicate ValidTable(regions: seq<Region>) {
    && (forall k | 0 <= k < |regions| :: WellFormed(regions[k]))
    && (forall j, k | 0 <= j < k < |regions| :: Disjoint(regions[j], regions[k]))
  }

  /** Mathematical containment, without the 64-bit end. */
  predicate Inside(r: Region, s: Space, addr: nat) {
    Base(r, s) <= addr < Base(r, s) + r.size
  }

  /** The 64-bit test is containment exactly for the regions that end below 2^64. */
  lemma CoverIsExact(r: Region, s: Space)
    requires Base(r, s) < W64 && r.size < W64
    ensures (forall addr: nat :: Covers(r, s, addr) <==> Inside(r, s, addr))
            <==> Base(r, s) + r.size < W64
  {
    if Base(r, s) + r.size >= W64 {
      assert Inside(r, s, Base(r, s));
      assert !Covers(r, s, Base(r, s));
    }
  }

  /** On any table, overlapping or not, the first region whose range test succeeds answers. */
  lemma {:induction false} FirstMatchWins(regions: seq<Region>, s: Space, addr: nat, k: nat)
    requires k < |regions| && forall j | 0 <= j < k :: !Covers(regions[j], s, addr)
    requires var base := if s.GuestPhysical? then regions[k].gpa else regions[k].qva;
      base <= addr < (base + regions[k].size) % 0x1_0000_0000_0000_0000
    ensures var base := if s.GuestPhysical? then regions[k].gpa else regions[k].qva;
      Translate(regions, s, addr)
      == Some((addr - base + regions[k].mmapAddr + regions[k].mmapOffset) % 0x1_0000_0000_0000_0000)
  {
    if k > 0 {
      assert forall j | 0 <= j < k - 1 :: regions[1..][j] == regions[j + 1];
      FirstMatchWins(regions[1..], s, addr, k - 1);
    }
  }

  lemma CoverOfRegion(r: Region, s: Space, addr: nat)
    requires WellFormed(r)
    ensures Covers(r, s, addr) <==> Inside(r, s, addr)
    ensures Inside(r, s, addr) ==> HostOf(r, s, addr) == HostStart(r) + (addr - Base(r, s))
  {
  }

  /** The scan answers with the one region that contains the address, wherever it stands. */
  lemma {:induction false} TranslateByRegion(regions: seq<Region>, s: Space, addr: nat, k: nat)
    requires ValidTable(regions)
    requires k < |regions| && Inside(regions[k], s, addr)
    ensures Translate(regions, s, addr) == Some(HostStart(regions[k]) + (addr - Base(regions[k], s)))
  {
    hide Covers, HostOf;
    if k == 0 {
      CoverOfRegion(regions[0], s, addr);
    } else {
      assert Disjoint(regions[0], regions[k]);
      CoverOfRegion(regions[0], s, addr);
      TailIsValid(regions);
      TranslateByRegion(regions[1..], s, addr, k - 1);
    }
  }

  lemma TailIsValid(regions: seq<Region>)
    requires ValidTable(regions) && regions != []
    ensures ValidTable(regions[1..])
  {
    var rest := regions[1..];
    forall j, k | 0 <= j < k < |rest|
      ensures Disjoint(rest[j], rest[k])
    {
      assert Disjoint(regions[j + 1], regions[k + 1]);
    }
  }

  /** The scan fails exactly when no region contains the address. */
  lemma {:induction false} TranslateFails(regions: seq<Region>, s: Space, addr: nat)
    requires ValidTable(regions)
    ensures Translate(regions, s, addr) == None
            <==> forall k | 0 <= k < |regions| :: !Inside(regions[k], s, addr)
  {
    hide Covers, HostOf, Disjoint;
    if k: nat :| k < |regions| && Inside(regions[k], s, addr) {
      TranslateByRegion(regions, s, addr, k);
    } else if regions != [] {
      CoverOfRegion(regions[0], s, addr);
      TailIsValid(regions);
      TranslateFails(regions[1..], s, addr);
    }
  }

  /** The region an address of a translated answer came from. */
  lemma RegionOf(regions: seq<Region>, s: Space, addr: nat) returns (k: nat)
    requires ValidTable(regions) && Translate(regions, s, addr).Some?
    ensures k < |regions| && Inside(regions[k], s, addr)
    ensures Translate(regions, s, addr) == Some(HostStart(regions[k]) + (addr - Base(regions[k], s)))
  {
    TranslateFails(regions, s, addr);
    k :| k < |regions| && Inside(regions[k], s, addr);
    TranslateByRegion(regions, s, addr, k);
  }

  /** Validity does not depend on the order of the table either. */
  lemma ShuffleIsValid(regions: seq<Region>, shuffled: seq<Region>)
    requires ValidTable(regions) && multiset(regions) == multiset(shuffled)
    ensures ValidTable(shuffled)
  {
    forall k | 0 <= k < |shuffled|
      ensures WellFormed(shuffled[k])
    {
      assert shuffled[k] in multiset(regions);
      assert shuffled[k] in regions;
    }
    forall j, k | 0 <= j < k < |shuffled|
      ensures Disjoint(shuffled[j], shuffled[k])
    {
      var x, y := TwoPlaces(shuffled, regions, j, k);
      if x < y {
        assert Disjoint(regions[x], regions[y]);
      } else {
        assert Disjoint(regions[y], regions[x]);
      }
    }
  }

  lemma WithoutOne<T>(s: seq<T>, j: nat)
    requires j < |s|
    ensures multiset(s[..j] + s[j + 1..]) == multiset(s) - multiset{s[j]}
  {
    assert s == s[..j] + [s[j]] + s[j + 1..];
  }

  /** Two places of a sequence have counterparts at two places of any rearrangement of it. */
  lemma TwoPlaces<T>(s: seq<T>, t: seq<T>, j: nat, k: nat) returns (x: nat, y: nat)
    requires j < k < |s| && multiset(s) == multiset(t)
    ensures x < |t| && y < |t| && x != y && t[x] == s[j] && t[y] == s[k]
  {
    x := PlaceOf(s, t, j);
    var restS, restT := s[..j] + s[j + 1..], t[..x] + t[x + 1..];
    WithoutOne(s, j);
    WithoutOne(t, x);
    assert restS[k - 1] == s[k];
    var i := PlaceOf(restS, restT, k - 1);
    y := if i < x then i else i + 1;
  }

  lemma PlaceOf<T>(s: seq<T>, t: seq<T>, k: nat) returns (j: nat)
    requires k < |s| && multiset(s) == multiset(t)
    ensures j < |t| && t[j] == s[k]
  {
    assert s[k] in multiset(t);
    j :| j < |t| && t[j] == s[k];
  }

  lemma TranslateInShuffle(regions: seq<Region>, shuffled: seq<Region>, s: Space, addr: nat)
    requires ValidTable(regions) && ValidTable(shuffled)
    requires multiset(regions) == multiset(shuffled)
    requires Translate(regions, s, addr).Some?
    ensures Translate(regions, s, addr) == Translate(shuffled, s, addr)
  {
    hide Translate, ValidTable, Inside;
    var k := RegionOf(regions, s, addr);
    var j := PlaceOf(regions, shuffled, k);
    TranslateByRegion(shuffled, s, addr, j);
  }

  /** Answers do not depend on the order of the table. */
  lemma TranslateOrderIndependent(regions: seq<Region>, shuffled: seq<Region>, s: Space, addr: nat)
    requires ValidTable(regions) && multiset(regions) == multiset(shuffled)
    ensures Translate(regions, s, addr) == Translate(shuffled, s, addr)
  {
    ShuffleIsValid(regions, shuffled);
    if Translate(regions, s, addr).Some? {
      TranslateInShuffle(regions, shuffled, s, addr);
    } else if Translate(shuffled, s, addr).Some? {
      TranslateInShuffle(shuffled, regions, s, addr);
    }
  }

  /** No two addresses of one space share a host address. */
  lemma TranslateInjective(regions: seq<Region>, s: Space, a: nat, b: nat)
    requires ValidTable(regions)
    requires Translate(regions, s, a).Some? && Translate(regions, s, a) == Translate(regions, s, b)
    ensures a == b
  {
    var j := RegionOf(regions, s, a);
    var k := RegionOf(regions, s, b);
  }

  /** A range inside one region translates to a range inside that region's mapping. */
  lemma TranslateContiguous(regions: seq<Region>, s: Space, addr: nat, len: nat, k: nat, i: nat)
    requires ValidTable(regions) && k < |regions| && i < len
    requires Inside(regions[k], s, addr) && addr + len <= Base(regions[k], s) + regions[k].size
    ensures Translate(regions, s, addr).Some?
    ensures Translate(regions, s, addr + i) == Some(Translate(regions, s, addr).value + i)
    ensures HostStart(regions[k]) <= Translate(regions, s, addr).value
    ensures Translate(regions, s, addr).value + len <= HostStart(regions[k]) + regions[k].size
  {
    TranslateByRegion(regions, s, addr, k);
    TranslateByRegion(regions, s, addr + i, k);
  }

  /** The guest-physical and the QEMU-virtual name of one byte reach the same host byte. */
  lemma SpacesAgree(regions: seq<Region>, k: nat, offset: nat)
    requires ValidTable(regions) && k < |regions| && offset < regions[k].size
    ensures Translate(regions, GuestPhysical, regions[k].gpa + offset).Some?
    ensures Translate(regions, GuestPhysical, regions[k].gpa + offset)
         == Translate(regions, QemuVirtual, regions[k].qva + offset)
  {
    TranslateByRegion(regions, GuestPhysical, regions[k].gpa + offset, k);
    TranslateByRegion(regions, QemuVirtual, regions[k].qva + offset, k);
  }
}
