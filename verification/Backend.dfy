/** The backend device record and the control messages that set it up. */
module Backend {
  import opened Wrappers
  import opened Words
  import opened Regions
  import TxRing
  import TxRingSafety
  import TxReload

  const MAX_REGIONS: nat := 8

  /** A region of the memory-table message, before it is mapped. */
  datatype MsgRegion = MsgRegion(guestPhysAddr: nat, memorySize: nat, userspaceAddr: nat, mmapOffset: nat)

  /** The three ring pointers, the indices and the flags of one queue. */
  datatype VirtQueue = VirtQueue(
    desc: nat, avail: nat, used: nat, lastAvailIdx: nat, lastUsedIdx: nat, size: nat,
    callFd: int, kickFd: int, enable: nat)

  /** The queue messages that touch ring state. */
  datatype QueueMsg =
    | SetNum(num: nat)
    | SetAddr(desc: nat, used: nat, avail: nat)
    | SetBase(base: nat)
    | GetBase

  /** Memory mapped from the guest: the used index stored at a host address. */
  type UsedIndex = nat -> nat

  /** One message on one queue; None is the failed translation of a ring address. */
  function Apply(vq: VirtQueue, msg: QueueMsg, regions: seq<Region>, usedIdx: UsedIndex): Option<VirtQueue> {
    match msg
    case SetNum(num) => Some(vq.(size := num))
    case SetAddr(desc, used, avail) =>
      var d := Translate(regions, QemuVirtual, desc);
      var u := Translate(regions, QemuVirtual, used);
      var a := Translate(regions, QemuVirtual, avail);
      if d.None? || u.None? || a.None? then None
      else
        var idx := Wrap16(usedIdx(u.value));
        Some(vq.(desc := d.value, used := u.value, avail := a.value, lastUsedIdx := idx, lastAvailIdx := idx))
    case SetBase(base) => Some(vq.(lastAvailIdx := Wrap16(base)))
    case GetBase => Some(vq.(callFd := -1, kickFd := -1))
  }

  /** A queue that stands where the dequeue thread of a world stands. */
  predicate Mirrors(vq: VirtQueue, w: TxRing.World) {
    vq.lastAvailIdx == w.m.lastAvail && vq.lastUsedIdx == w.m.lastUsed
  }

  /**
   On the ring of a running queue, named again, the message is the reload of the transmit machine.
   Handled between two steps of the thread, it makes the thread go on exactly at the first
   unpublished entry if and only if no entry is in hand or the available index does not move.
   */
  lemma AddrIsReload(vq: VirtQueue, msg: QueueMsg, regions: seq<Region>, usedIdx: UsedIndex, size: nat, w: TxRing.World)
    requires TxRingSafety.Inv(size, w) && Mirrors(vq, w) && msg.SetAddr? && !w.m.pc.Halted?
    requires Apply(vq, msg, regions, usedIdx).Some?
    requires Wrap16(usedIdx(Translate(regions, QemuVirtual, msg.used).value)) == w.m.usedIdx
    ensures var after, w' := Apply(vq, msg, regions, usedIdx).value, TxReload.StoreAvail(TxReload.StoreUsed(w));
      && Mirrors(after, w')
      && (TxReload.ResumesExactly(size, w') <==> !TxReload.InHand(w.m.pc) || after.lastAvailIdx == vq.lastAvailIdx)
  {
    hide TxRingSafety.Inv, TxReload.ResumesExactly;
    TxReload.BackToBackIsExact(size, w);
  }

  /** The base the backend replies with. */
  function Reply(vq: VirtQueue, msg: QueueMsg): Option<nat> {
    if msg.GetBase? then Some(vq.lastAvailIdx) else None
  }

  /**
   The base a stopped queue reports restores its available index; on the ring of the transmit
   machine it counts all entries consumed, published or not.
   */
  lemma BaseRoundTrip(vq: VirtQueue, regions: seq<Region>, usedIdx: UsedIndex, w: TxRing.World)
    requires TxRingSafety.Counters(w) && Mirrors(vq, w)
    ensures Reply(vq, GetBase) == Some(Wrap16(TxRingSafety.Consumed(w.h)))
    ensures var stopped := Apply(vq, GetBase, regions, usedIdx).value;
      Apply(stopped, SetBase(Reply(vq, GetBase).value), regions, usedIdx) == Some(stopped)
  {
  }

  /** A base set before the ring addresses has no effect: the addresses bring their own. */
  lemma AddrOverridesBase(vq: VirtQueue, base: nat, msg: QueueMsg, regions: seq<Region>, usedIdx: UsedIndex)
    requires msg.SetAddr?
    ensures var based := Apply(vq, SetBase(base), regions, usedIdx).value;
      Apply(based, msg, regions, usedIdx) == Apply(vq, msg, regions, usedIdx)
  {
  }

  /** The regions of a message do not overlap in either address space, nor do their mappings. */
  ghost predicate ProperMessage(table: seq<MsgRegion>, mapped: seq<nat>)
    requires |table| == |mapped|
  {
    && (forall k | 0 <= k < |table| ::
          && table[k].guestPhysAddr + table[k].memorySize < W64
          && table[k].userspaceAddr + table[k].memorySize < W64
          && mapped[k] + table[k].mmapOffset + table[k].memorySize < W64)
    && (forall j, k | 0 <= j < k < |table| ::
          && Apart(table[j].guestPhysAddr, table[k].guestPhysAddr, table[j].memorySize, table[k].memorySize)
          && Apart(table[j].userspaceAddr, table[k].userspaceAddr, table[j].memorySize, table[k].memorySize)
          && Apart(mapped[j] + table[j].mmapOffset, mapped[k] + table[k].mmapOffset,
                   table[j].memorySize, table[k].memorySize))
  }

  function RegionFrom(t: MsgRegion, mapped: nat): Region {
    Region(t.guestPhysAddr, t.memorySize, t.userspaceAddr, t.mmapOffset, mapped)
  }

  /** The table the translations rely on is exactly what a proper message leaves. */
  lemma TableFromMessage(table: seq<MsgRegion>, mapped: seq<nat>, regions: seq<Region>)
    requires |table| == |mapped| == |regions|
    requires forall k | 0 <= k < |table| :: regions[k] == RegionFrom(table[k], mapped[k])
    ensures ValidTable(regions) <==> ProperMessage(table, mapped)
  {
    if ValidTable(regions) {
      assert forall k | 0 <= k < |table| :: WellFormed(regions[k]) && regions[k] == RegionFrom(table[k], mapped[k]);
      assert forall j, k | 0 <= j < k < |table| :: Disjoint(regions[j], regions[k]);
    }
  }

  /** An address the message puts at offset off of its region k, in both address spaces. */
  lemma MessageTranslates(table: seq<MsgRegion>, mapped: seq<nat>, regions: seq<Region>, k: nat, off: nat)
    requires |table| == |mapped| == |regions| && ProperMessage(table, mapped)
    requires forall k | 0 <= k < |table| :: regions[k] == RegionFrom(table[k], mapped[k])
    requires k < |table| && off < table[k].memorySize
    ensures Translate(regions, GuestPhysical, table[k].guestPhysAddr + off)
         == Some(mapped[k] + table[k].mmapOffset + off)
         == Translate(regions, QemuVirtual, table[k].userspaceAddr + off)
  {
    hide Translate, ProperMessage;
    TableFromMessage(table, mapped, regions);
    TranslateByRegion(regions, GuestPhysical, table[k].guestPhysAddr + off, k);
    TranslateByRegion(regions, QemuVirtual, table[k].userspaceAddr + off, k);
  }

  /** ... and one that it puts nowhere. */
  lemma MessageOmits(table: seq<MsgRegion>, mapped: seq<nat>, regions: seq<Region>, addr: nat)
    requires |table| == |mapped| == |regions| && ProperMessage(table, mapped)
    requires forall k | 0 <= k < |table| :: regions[k] == RegionFrom(table[k], mapped[k])
    ensures (forall k | 0 <= k < |table| ::
               addr < table[k].guestPhysAddr || table[k].guestPhysAddr + table[k].memorySize <= addr)
            ==> Translate(regions, GuestPhysical, addr) == None
    ensures (forall k | 0 <= k < |table| ::
               addr < table[k].userspaceAddr || table[k].userspaceAddr + table[k].memorySize <= addr)
            ==> Translate(regions, QemuVirtual, addr) == None
  {
    hide Translate, ProperMessage;
    TableFromMessage(table, mapped, regions);
    TranslateFails(regions, GuestPhysical, addr);
    TranslateFails(regions, QemuVirtual, addr);
  }

  class Device {
    var nregions: nat
    const regions: array<Region>
    const vq: array<VirtQueue>
    const en2: array<nat>

    ghost predicate Valid()
      reads this
    {
      nregions <= MAX_REGIONS == regions.Length && vq.Length == 2 && en2.Length == 2
    }

    ghost function Table(): seq<Region>
      requires Valid()
      reads this, regions
    {
      regions[..nregions]
    }

    constructor ()
      ensures Valid() && Table() == [] && fresh(regions) && fresh(vq) && fresh(en2)
      ensures forall k | 0 <= k < 2 :: vq[k].lastAvailIdx == vq[k].lastUsedIdx == 0 && en2[k] == 0
    {
      nregions := 0;
      regions := new Region[MAX_REGIONS](_ => Region(0, 0, 0, 0, 0));
      vq := new VirtQueue[2](_ => VirtQueue(0, 0, 0, 0, 0, 0, -1, -1, 0));
      en2 := new nat[2](_ => 0);
    }

    /** The scan behind both address translations. */
    method Lookup(s: Space, addr: nat) returns (va: Option<nat>)
      requires Valid()
      ensures va == Translate(Table(), s, addr)
    {
      var i := 0;
      while i < nregions
        invariant 0 <= i <= nregions
        invariant Translate(Table(), s, addr) == Translate(Table()[i..], s, addr)
      {
        var r := regions[i];
        assert Table()[i..][0] == r && Table()[i..][1..] == Table()[i + 1..];
        if Covers(r, s, addr) {
          return Some(HostOf(r, s, addr));
        }
        i := i + 1;
      }
      va := None;
    }

    /** SET_MEM_TABLE, the mappings being already made. */
    method SetMemTable(table: seq<MsgRegion>, mapped: seq<nat>)
      requires Valid() && |table| == |mapped| <= MAX_REGIONS
      modifies `nregions, regions
      ensures Valid() && |Table()| == |table|
      ensures forall k | 0 <= k < |table| :: Table()[k] == RegionFrom(table[k], mapped[k])
      ensures ValidTable(Table()) <==> ProperMessage(table, mapped)
      ensures ProperMessage(table, mapped) ==>
                forall k, addr | 0 <= k < |table| && 0 <= addr - table[k].guestPhysAddr < table[k].memorySize ::
                  Translate(Table(), GuestPhysical, addr)
                  == Some(mapped[k] + table[k].mmapOffset + (addr - table[k].guestPhysAddr))
      ensures ProperMessage(table, mapped) ==>
                forall k, addr | 0 <= k < |table| && 0 <= addr - table[k].userspaceAddr < table[k].memorySize ::
                  Translate(Table(), QemuVirtual, addr)
                  == Some(mapped[k] + table[k].mmapOffset + (addr - table[k].userspaceAddr))
    {
      nregions := |table|;
      for i := 0 to nregions
        invariant nregions == |table|
        invariant forall k | 0 <= k < i :: regions[k] == RegionFrom(table[k], mapped[k])
      {
        var t := table[i];
        regions[i] := Region(t.guestPhysAddr, t.memorySize, t.userspaceAddr, t.mmapOffset, mapped[i]);
      }
      TableFromMessage(table, mapped, Table());
      if ProperMessage(table, mapped) {
        forall k, addr | 0 <= k < |table| && 0 <= addr - table[k].guestPhysAddr < table[k].memorySize
          ensures Translate(Table(), GuestPhysical, addr)
                  == Some(mapped[k] + table[k].mmapOffset + (addr - table[k].guestPhysAddr))
        {
          MessageTranslates(table, mapped, Table(), k, addr - table[k].guestPhysAddr);
        }
        forall k, addr | 0 <= k < |table| && 0 <= addr - table[k].userspaceAddr < table[k].memorySize
          ensures Translate(Table(), QemuVirtual, addr)
                  == Some(mapped[k] + table[k].mmapOffset + (addr - table[k].userspaceAddr))
        {
          MessageTranslates(table, mapped, Table(), k, addr - table[k].userspaceAddr);
        }
      }
    }

    /** A queue message; false is the failed assertion of a translation. */
    method Handle(index: nat, msg: QueueMsg, usedIdx: UsedIndex) returns (ok: bool, reply: Option<nat>)
      requires Valid() && index < 2
      modifies vq
      ensures Valid()
      ensures var want := Apply(old(vq[index]), msg, Table(), usedIdx);
        ok == want.Some? && vq[..] == if ok then old(vq[..])[index := want.value] else old(vq[..])
      ensures reply == Reply(old(vq[index]), msg)
      ensures vq[1 - index] == old(vq[1 - index])
      ensures msg.SetNum? ==> ok && vq[index] == old(vq[index]).(size := msg.num)
      ensures msg.SetBase? ==> ok && vq[index] == old(vq[index]).(lastAvailIdx := msg.base % 0x1_0000)
      ensures msg.GetBase? ==>
                && ok && vq[index] == old(vq[index]).(callFd := -1, kickFd := -1)
                && reply == Some(old(vq[index]).lastAvailIdx)
      ensures msg.SetAddr? ==>
                var d, u, a := Translate(Table(), QemuVirtual, msg.desc), Translate(Table(), QemuVirtual, msg.used),
                               Translate(Table(), QemuVirtual, msg.avail);
                && (ok <==> d.Some? && u.Some? && a.Some?)
                && (ok ==> && vq[index].desc == d.value && vq[index].used == u.value && vq[index].avail == a.value
                           && vq[index].lastUsedIdx == vq[index].lastAvailIdx == usedIdx(u.value) % 0x1_0000
                           && vq[index].size == old(vq[index]).size && vq[index].enable == old(vq[index]).enable
                           && vq[index].callFd == old(vq[index]).callFd && vq[index].kickFd == old(vq[index]).kickFd)
    {
      var q := vq[index];
      reply := None;
      match msg {
      case SetNum(num) => q := q.(size := num);
      case SetAddr(desc, used, avail) =>
        var d := Lookup(QemuVirtual, desc);
        if d.None? { return false, None; }
        var u := Lookup(QemuVirtual, used);
        if u.None? { return false, None; }
        var a := Lookup(QemuVirtual, avail);
        if a.None? { return false, None; }
        q := q.(desc := d.value, used := u.value, avail := a.value);
        q := q.(lastUsedIdx := Wrap16(usedIdx(q.used)));
        if q.lastAvailIdx != Wrap16(usedIdx(q.used)) {
          q := q.(lastAvailIdx := Wrap16(usedIdx(q.used)));
        }
      case SetBase(base) => q := q.(lastAvailIdx := Wrap16(base));
      case GetBase =>
        reply := Some(q.lastAvailIdx);
        q := q.(callFd := -1, kickFd := -1);
      }
      vq[index] := q;
      ok := true;
    }

    /** SET_VRING_ENABLE: the transmit thread is started by the second and later enabling messages. */
    method Enable(index: nat, enable: nat) returns (startTx: bool)
      requires Valid() && index < 2
      modifies vq, en2
      ensures Valid()
      ensures vq[..] == old(vq[..])[index := old(vq[index]).(enable := enable)]
      ensures en2[..] == old(en2[..])[index := old(en2[index]) + 1]
      ensures startTx <==> index == 1 && enable != 0 && old(en2[index]) >= 1
    {
      vq[index] := vq[index].(enable := enable);
      en2[index] := en2[index] + 1;
      startTx := enable != 0 && en2[index] > 1 && index == 1;
    }
  }
}
