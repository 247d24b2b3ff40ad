/**
 The ring-address message on a running queue. The control thread reloads the two indices from the
 used ring in two stores, and the dequeue thread is not stopped: it and the driver go on before,
 between and after the stores. When does the thread go on exactly at the first unpublished entry?
 */
module TxReload {
  import opened Wrappers
  import opened Words
  import opened Regions
  import opened Chains
  import opened TxRing
  import opened TxRingSafety
  import TxRingRuns

  /**
   Where the control thread stands. Between the stores: by how many entries the first one moved
   the used index back, and the first entry for which the thread has read that index since.
   */
  datatype Control = Idle | Half(lag: nat, first: Option<nat>)

  datatype Session = Session(w: World, ctl: Control)

  datatype Event = Step(move: Move) | LoadUsed | LoadAvail

  /** The first store: last_used_idx. */
  function StoreUsed(w: World): World {
    World(w.m.(lastUsed := w.m.usedIdx), w.h)
  }

  /** The second store: last_avail_idx. What is unpublished counts as not consumed from now on. */
  function StoreAvail(w: World): World {
    World(w.m.(lastAvail := w.m.usedIdx), TakeBack(w.h))
  }

  /** The thread's read of the used index is the one thing to note between the stores. */
  function Note(s: Session, move: Move): Control {
    if s.ctl.Half? && s.ctl.first.None? && move.DeviceMove? && s.w.m.pc.PickSlot?
    then Half(s.ctl.lag, Some(Consumed(s.w.h)))
    else s.ctl
  }

  ghost predicate SessionNext(size: nat, s: Session, e: Event, s': Session)
    requires size > 0
  {
    match e
    case Step(move) =>
      Next(size, s.w, move, s'.w) && s'.ctl == Note(s, move) && (move.RestartMove? ==> s.ctl.Idle?)
    case LoadUsed =>
      && s.ctl.Idle? && !s.w.m.pc.Halted?
      && s' == Session(StoreUsed(s.w), Half(Span(s.w.m.usedIdx, s.w.m.lastUsed), None))
    case LoadAvail =>
      s.ctl.Half? && !s.w.m.pc.Halted? && s' == Session(StoreAvail(s.w), Idle)
  }

  ghost predicate SessionRun(size: nat, ss: seq<Session>, es: seq<Event>)
    requires size > 0
  {
    && |ss| == |es| + 1 && Init(size, ss[0].w) && ss[0].ctl.Idle?
    && forall k | 0 <= k < |es| :: SessionNext(size, ss[k], es[k], ss[k + 1])
  }

  /** The thread works on an entry. */
  predicate InHand(pc: Pc) {
    !pc.Check? && !pc.Fetch? && !pc.Publish? && !pc.Halted?
  }

  /**
   The condition at the second store: all of the used index is published, and either the store
   changes nothing, or the thread has no entry in hand and has picked no slot since the first store.
   */
  predicate Harmless(s: Session) {
    var m := s.w.m;
    && m.usedIdx == m.lastUsed
    && (m.usedIdx == m.lastAvail || (!InHand(m.pc) && s.ctl.Half? && s.ctl.first.None?))
  }

  // ----- what a reload is for, told by the rings -----

  /**
   What the thread has in hand, if anything, is entry n, to be recorded in the slot of entry n.
   Between its two increments the thread is about to move the used index alone.
   */
  ghost predicate Serves(size: nat, m: Machine, sent: seq<Entry>, n: nat)
    requires |m.usedRing| == size > 0
  {
    match m.pc
    case PickSlot(head) => n < |sent| && head == Head(sent[n])
    case Walking(head, u, _, _) => n < |sent| && head == Head(sent[n]) && u == Slot(size, n)
    case StoreId(head, u, _) => n < |sent| && head == Head(sent[n]) && u == Slot(size, n)
    case StoreLen(head, u, _) => n < |sent| && head == Head(sent[n]) && u == Slot(size, n)
    case BumpAvail(head, _) => n < |sent| && head == Head(sent[n]) && m.usedRing[Slot(size, n)].id == head
    case BumpUsed => false
    case _ => true
  }

  /** The ids the driver has read, and those it can read, are those of the entries in order. */
  ghost predicate ReturnedInOrder(size: nat, m: Machine, h: History)
    requires |m.usedRing| == size > 0
  {
    && HarvestedInOrder(h.sent, h.harvested)
    && h.published <= |h.sent|
    && forall n | |h.harvested| <= n < h.published :: m.usedRing[Slot(size, n)].id == Head(h.sent[n])
  }

  /**
   The thread goes on exactly at the first unpublished entry: both indices stand there, the entry
   in hand is that one for its own slot, and what is published is right. Nothing here refers to
   what the record counts as received.
   */
  ghost predicate ResumesExactly(size: nat, w: World) {
    && |w.m.usedRing| == size > 0
    && w.m.lastAvail == w.m.lastUsed == w.m.usedIdx
    && Serves(size, w.m, w.h.sent, w.h.published)
    && ReturnedInOrder(size, w.m, w.h)
  }

  /** In order, and with nothing unpublished counted as consumed, the thread resumes exactly. */
  lemma InvResumes(size: nat, w: World)
    requires Inv(size, w) && Consumed(w.h) == w.h.published
    ensures ResumesExactly(size, w)
  {
    hide Intact, HeldIsOutstanding, AvailSlots, ReceivedInOrder, LogBalances, OnChain;
  }

  // ----- between the stores, before the thread has read the used index -----

  /** The world with the used index that the record calls for. */
  function Mended(w: World): World {
    World(w.m.(lastUsed := Wrap16(Consumed(w.h) - Behind(w.m.pc))), w.h)
  }

  /** The used index is lag entries back and nothing else is wrong. */
  ghost predicate Mid(size: nat, w: World, lag: nat) {
    && Inv(size, Mended(w))
    && 0 < lag && w.h.published + lag + Behind(w.m.pc) <= Consumed(w.h)
    && w.m.lastUsed == Wrap16(Consumed(w.h) - lag - Behind(w.m.pc))
  }

  lemma LoadUsedStartsMid(size: nat, w: World)
    requires Inv(size, w)
    ensures var lag := Span(w.m.usedIdx, w.m.lastUsed);
      if lag == 0 then StoreUsed(w) == w else Mid(size, StoreUsed(w), lag)
  {
    hide Inv;
    SpanIsUnpublished(size, w);
    InvCounters(size, w);
    hide Span;
    assert Mended(StoreUsed(w)) == w;
  }

  lemma MendedStep(size: nat, w: World)
    requires size > 0 && !w.m.pc.PickSlot? && !w.m.pc.Publish? && Behind(w.m.pc) <= Consumed(w.h)
    ensures Mended(DeviceStep(size, w)) == DeviceStep(size, Mended(w))
  {
    hide WalkStep;
    WrapSuccessor(Consumed(w.h) - Behind(w.m.pc));
  }

  lemma BehindMoves(size: nat, w: World, lag: nat)
    requires size > 0 && !w.m.pc.Publish? && lag + Behind(w.m.pc) <= Consumed(w.h)
    requires w.m.lastUsed == Wrap16(Consumed(w.h) - lag - Behind(w.m.pc))
    ensures var w' := DeviceStep(size, w);
      && Consumed(w.h) - Behind(w.m.pc) <= Consumed(w'.h) - Behind(w'.m.pc)
      && w'.m.lastUsed == Wrap16(Consumed(w'.h) - lag - Behind(w'.m.pc))
      && w'.h.published == w.h.published
  {
    hide WalkStep;
    WrapSuccessor(Consumed(w.h) - lag - Behind(w.m.pc));
  }

  lemma MidPublish(size: nat, w: World, lag: nat)
    requires Mid(size, w, lag) && w.m.pc.Publish?
    ensures Mid(size, DeviceStep(size, w), lag)
  {
    hide Intact, HeldIsOutstanding, AvailSlots, UsedSlots, HarvestedInOrder, ReceivedInOrder, LogBalances;
    RingNeverOverflows(w.m.mem, w.h.sent, Reclaimed(w.h));
    SpanOfCounters(w.h.published, Consumed(w.h) - lag);
  }

  lemma MidDevice(size: nat, w: World, lag: nat)
    requires Mid(size, w, lag) && !w.m.pc.PickSlot?
    ensures Mid(size, DeviceStep(size, w), lag)
  {
    hide Inv, DeviceStep;
    if w.m.pc.Publish? {
      MidPublish(size, w, lag);
    } else {
      InvCounters(size, Mended(w));
      MendedStep(size, w);
      BehindMoves(size, w, lag);
      DeviceKeepsInv(size, Mended(w));
    }
  }

  lemma InvCounters(size: nat, w: World)
    requires Inv(size, w)
    ensures RingSize(size) && Counters(w) && Exposed(w.h) <= Reclaimed(w.h) + size
  {
    hide Intact, HeldIsOutstanding, AvailSlots, UsedSlots, HarvestedInOrder, ReceivedInOrder, LogBalances, AtPc;
    RingNeverOverflows(w.m.mem, w.h.sent, Reclaimed(w.h));
  }

  /** The world with other indices of the thread, and another record of what it received. */
  function Rebased(w: World, a: nat, u: nat, received: seq<seq<Byte>>, replayed: seq<seq<Byte>>): World {
    World(w.m.(lastAvail := a, lastUsed := u), w.h.(received := received, replayed := replayed))
  }

  lemma RebasedScribble(size: nat, w: World, w': World, a: nat, u: nat, rec: seq<seq<Byte>>, rep: seq<seq<Byte>>)
    requires size > 0 && Scribble(size, w, w')
    ensures Scribble(size, Rebased(w, a, u, rec, rep), Rebased(w', a, u, rec, rep))
  {
    hide Slot, SameBuffer;
    assert forall i: nat :: InUse(Rebased(w, a, u, rec, rep).m, i) <==> InUse(w.m, i);
  }

  lemma RebasedExpose(size: nat, w: World, chain: seq<nat>, a: nat, u: nat, rec: seq<seq<Byte>>, rep: seq<seq<Byte>>)
    requires size > 0 && CanExpose(size, w.m, chain)
    ensures var v := Rebased(w, a, u, rec, rep);
      CanExpose(size, v.m, chain) && Rebased(Expose(w, chain), a, u, rec, rep) == Expose(v, chain)
  {
    hide Wrap16, Slot, Reassemble;
    assert forall i: nat :: InUse(Rebased(w, a, u, rec, rep).m, i) <==> InUse(w.m, i);
  }

  lemma RebasedReclaim(size: nat, w: World, a: nat, u: nat, rec: seq<seq<Byte>>, rep: seq<seq<Byte>>)
    requires size > 0
    ensures Rebased(Reclaim(size, w), a, u, rec, rep) == Reclaim(size, Rebased(w, a, u, rec, rep))
  {
    hide Wrap16, Slot;
  }

  /** The driver neither sees nor changes any of that. */
  lemma RebasedDriver(size: nat, w: World, move: Move, w': World, a: nat, u: nat,
                      rec: seq<seq<Byte>>, rep: seq<seq<Byte>>)
    requires size > 0 && DriverMove(move) && Next(size, w, move, w')
    ensures Next(size, Rebased(w, a, u, rec, rep), move, Rebased(w', a, u, rec, rep))
  {
    hide Rebased, Reassemble, SameBuffer, InUse;
    match move
    case ScribbleMove => RebasedScribble(size, w, w', a, u, rec, rep);
    case ExposeMove(chain) => RebasedExpose(size, w, chain, a, u, rec, rep);
    case ReclaimMove => RebasedReclaim(size, w, a, u, rec, rep);
  }

  lemma DriverLeavesThread(size: nat, w: World, move: Move, w': World)
    requires size > 0 && DriverMove(move) && Next(size, w, move, w')
    ensures w'.m.pc == w.m.pc && w'.m.lastAvail == w.m.lastAvail && w'.m.lastUsed == w.m.lastUsed
    ensures w'.h == w.h.(sent := w'.h.sent, harvested := w'.h.harvested)
    ensures w.h.sent <= w'.h.sent
  {
    hide Reassemble, SameBuffer, InUse, Slot, Wrap16;
  }

  lemma MendedDriver(size: nat, w: World, move: Move, w': World)
    requires size > 0 && DriverMove(move) && Next(size, w, move, w')
    ensures Next(size, Mended(w), move, Mended(w'))
  {
    hide Next;
    DriverLeavesThread(size, w, move, w');
    RebasedDriver(size, w, move, w', w.m.lastAvail, Mended(w).m.lastUsed, w.h.received, w.h.replayed);
    assert Mended(w) == Rebased(w, w.m.lastAvail, Mended(w).m.lastUsed, w.h.received, w.h.replayed);
    assert Mended(w') == Rebased(w', w.m.lastAvail, Mended(w).m.lastUsed, w.h.received, w.h.replayed);
  }

  lemma MidDriver(size: nat, w: World, lag: nat, move: Move, w': World)
    requires size > 0 && Mid(size, w, lag) && DriverMove(move) && Next(size, w, move, w')
    ensures Mid(size, w', lag)
  {
    hide Inv, Next;
    MendedDriver(size, w, move, w');
    DriverLeavesThread(size, w, move, w');
    NextKeepsInv(size, Mended(w), move, Mended(w'));
  }

  // ----- between the stores, after the thread has read the used index -----

  /** Every head held out is a descriptor of the table and part of its own chain. */
  ghost predicate HeldOk(size: nat, held: map<nat, seq<nat>>) {
    forall head | head in held :: head < size && head in held[head]
  }

  /** The unwrapped used index. */
  function UsedCount(w: World, lag: nat): int {
    Consumed(w.h) - lag - Behind(w.m.pc)
  }

  ghost predicate LagCounters(size: nat, w: World, lag: nat) {
    && RingSize(size) && |w.m.availRing| == |w.m.usedRing| == |w.m.mem.desc| == size > 0
    && Reclaimed(w.h) <= w.h.published <= UsedCount(w, lag) && Consumed(w.h) <= Exposed(w.h)
    && w.m.availIdx == Wrap16(Exposed(w.h))
    && w.m.lastAvail == Wrap16(Consumed(w.h))
    && w.m.lastUsed == Wrap16(UsedCount(w, lag))
    && w.m.usedIdx == Wrap16(w.h.published)
    && w.m.lastSeen == Wrap16(Reclaimed(w.h))
  }

  /** The driver holds out at least as many chains as are outstanding. */
  ghost predicate HeldCovers(size: nat, w: World) {
    HeldOk(size, w.m.held) && Exposed(w.h) <= Reclaimed(w.h) + |w.m.held|
  }

  /** Entry e is, or is about to be, recorded in the slot of entry e - lag, whose head is another. */
  ghost predicate Misplaced(size: nat, m: Machine, h: History, lag: nat, e: nat)
    requires |m.usedRing| == size > 0
  {
    && 0 < lag <= e < |h.sent| && e <= |h.received|
    && Head(h.sent[e - lag]) != Head(h.sent[e])
    && (if |h.received| == e then Placing(size, m, e - lag, Head(h.sent[e]))
        else if |h.harvested| <= e - lag then m.usedRing[Slot(size, e - lag)].id == Head(h.sent[e])
        else h.harvested[e - lag] == Head(h.sent[e]))
  }

  /** The thread is on its way to put the head into the slot of entry n. */
  predicate Placing(size: nat, m: Machine, n: nat, head: nat)
    requires |m.usedRing| == size > 0
  {
    match m.pc
    case Walking(hd, _, _, _) => hd == head
    case StoreId(hd, _, _) => hd == head
    case StoreLen(hd, _, _) => hd == head && m.usedRing[Slot(size, n)].id == head
    case BumpAvail(hd, _) => hd == head && m.usedRing[Slot(size, n)].id == head
    case Halted(_) => true
    case _ => false
  }

  /** What the thread's place says of the slot it keeps and of the entry it serves. */
  predicate AtPlace(size: nat, pc: Pc, c: int, n: int, sent: int)
    requires size > 0 && 0 <= n
  {
    match pc
    case Check => true
    case Publish => true
    case Fetch => c < sent
    case PickSlot(_) => c < sent
    case Walking(_, u, _, _) => c < sent && u == Slot(size, n)
    case StoreId(_, u, _) => c < sent && u == Slot(size, n)
    case StoreLen(_, u, _) => c < sent && u == Slot(size, n)
    case BumpAvail(_, _) => c < sent
    case BumpUsed => true
    case Halted(_) => true
  }

  ghost predicate Wrong(size: nat, w: World, lag: nat, e: nat) {
    && LagCounters(size, w, lag)
    && HeldCovers(size, w)
    && AtPlace(size, w.m.pc, Consumed(w.h), UsedCount(w, lag), Exposed(w.h))
    && Misplaced(size, w.m, w.h, lag, e)
  }

  lemma HeldFits(size: nat, held: map<nat, seq<nat>>)
    requires HeldOk(size, held)
    ensures |held| <= size
  {
    assert held.Keys <= Below(size);
    SubsetSize(held.Keys, Below(size));
  }

  lemma HeldOfInv(size: nat, w: World)
    requires Inv(size, w)
    ensures HeldOk(size, w.m.held) && Exposed(w.h) == Reclaimed(w.h) + |w.m.held|
  {
    hide AvailSlots, UsedSlots, HarvestedInOrder, ReceivedInOrder, LogBalances, AtPc, Reassemble;
    forall head | head in w.m.held
      ensures head < size && head in w.m.held[head]
    {
      var n :| Reclaimed(w.h) <= n < |w.h.sent| && Head(w.h.sent[n]) == head;
      assert IsChain(w.m.mem.desc, w.h.sent[n].chain);
      assert w.h.sent[n].chain[0] == head;
    }
  }

  lemma OutstandingHeadsDiffer(size: nat, w: World, a: nat, b: nat)
    requires Inv(size, w) && Reclaimed(w.h) <= a < b < Exposed(w.h)
    ensures Head(w.h.sent[a]) != Head(w.h.sent[b])
  {
    hide HeldIsOutstanding, AvailSlots, UsedSlots, HarvestedInOrder, ReceivedInOrder, LogBalances, AtPc, Counters;
    assert Intact(w.m.mem, w.h.sent, a);
    HeadsDiffer(w.m.mem, w.h.sent, a, b);
  }

  lemma PickSlotGoesWrong(size: nat, w: World, lag: nat)
    requires Mid(size, w, lag) && w.m.pc.PickSlot?
    ensures Wrong(size, DeviceStep(size, w), lag, Consumed(w.h))
  {
    hide Intact, HeldIsOutstanding, AvailSlots, UsedSlots, HarvestedInOrder, ReceivedInOrder, LogBalances, HeldOk;
    var c := Consumed(w.h);
    HeldOfInv(size, Mended(w));
    OutstandingHeadsDiffer(size, Mended(w), c - lag, c);
    SlotOfWrapped(size, c - lag);
  }

  /** The slot being written is not that of an unread entry. */
  lemma StoreSpares(size: nat, w: World, lag: nat, n: nat)
    requires 0 < lag && LagCounters(size, w, lag) && HeldCovers(size, w) && Reclaimed(w.h) <= n < UsedCount(w, lag)
    ensures Slot(size, n) != Slot(size, UsedCount(w, lag))
  {
    hide HeldOk;
    HeldFits(size, w.m.held);
    SlotsDiffer(size, n, UsedCount(w, lag));
  }

  lemma WrongBumps(size: nat, w: World, lag: nat, e: nat)
    requires Wrong(size, w, lag, e) && (w.m.pc.BumpAvail? || w.m.pc.BumpUsed?)
    ensures Wrong(size, DeviceStep(size, w), lag, e)
  {
    WrapSuccessor(Consumed(w.h));
    WrapSuccessor(UsedCount(w, lag));
    hide HeldOk, Wrap16;
  }

  lemma WrongWalks(size: nat, w: World, lag: nat, e: nat)
    requires Wrong(size, w, lag, e) && w.m.pc.Walking?
    ensures Wrong(size, DeviceStep(size, w), lag, e)
  {
    hide HeldOk, WalkStep, Wrap16, Slot;
  }

  lemma WrongPicks(size: nat, w: World, lag: nat, e: nat)
    requires Wrong(size, w, lag, e) && w.m.pc.PickSlot?
    ensures Wrong(size, DeviceStep(size, w), lag, e)
  {
    var u, head := Slot(size, UsedCount(w, lag)), w.m.pc.head;
    SlotOfWrapped(size, UsedCount(w, lag));
    assert DeviceStep(size, w) == World(w.m.(pc := Walking(head, u, head, [])), w.h.(pos := 0));
    hide HeldOk, Wrap16, RingSize, Slot, DeviceStep;
  }

  lemma WrongMoves(size: nat, w: World, lag: nat, e: nat)
    requires Wrong(size, w, lag, e) && (w.m.pc.Check? || w.m.pc.Fetch? || w.m.pc.Halted?)
    ensures Wrong(size, DeviceStep(size, w), lag, e)
  {
    hide HeldOk, Slot;
  }

  lemma WrongPublishes(size: nat, w: World, lag: nat, e: nat)
    requires Wrong(size, w, lag, e) && w.m.pc.Publish?
    ensures Wrong(size, DeviceStep(size, w), lag, e)
  {
    HeldFits(size, w.m.held);
    hide HeldOk;
    SpanOfCounters(w.h.published, UsedCount(w, lag));
  }

  lemma WrongStores(size: nat, w: World, lag: nat, e: nat)
    requires Wrong(size, w, lag, e) && (w.m.pc.StoreId? || w.m.pc.StoreLen?)
    ensures Wrong(size, DeviceStep(size, w), lag, e)
  {
    hide HeldOk;
    if Consumed(w.h) > e && Reclaimed(w.h) <= e - lag {
      StoreSpares(size, w, lag, e - lag);
    }
  }

  lemma WrongDevice(size: nat, w: World, lag: nat, e: nat)
    requires Wrong(size, w, lag, e)
    ensures Wrong(size, DeviceStep(size, w), lag, e)
  {
    hide Wrong, DeviceStep;
    if w.m.pc.Publish? {
      WrongPublishes(size, w, lag, e);
    } else if w.m.pc.StoreId? || w.m.pc.StoreLen? {
      WrongStores(size, w, lag, e);
    } else if w.m.pc.BumpAvail? || w.m.pc.BumpUsed? {
      WrongBumps(size, w, lag, e);
    } else if w.m.pc.Walking? {
      WrongWalks(size, w, lag, e);
    } else if w.m.pc.PickSlot? {
      WrongPicks(size, w, lag, e);
    } else {
      WrongMoves(size, w, lag, e);
    }
  }

  lemma WrongScribble(size: nat, w: World, w': World, lag: nat, e: nat)
    requires Wrong(size, w, lag, e) && Scribble(size, w, w')
    ensures Wrong(size, w', lag, e)
  {
    hide HeldOk, InUse, SameBuffer;
  }

  lemma HeldGrows(size: nat, m: Machine, chain: seq<nat>)
    requires HeldOk(size, m.held) && |m.mem.desc| == size > 0 && CanExpose(size, m, chain)
    ensures HeldOk(size, m.held[chain[0] := chain])
    ensures |m.held[chain[0] := chain]| == |m.held| + 1
  {
    assert chain[0] in chain;
    if chain[0] in m.held {
      assert InUse(m, chain[0]);
    }
    assert m.held[chain[0] := chain].Keys == m.held.Keys + {chain[0]};
  }

  lemma ExposeLag(size: nat, w: World, chain: seq<nat>, lag: nat)
    requires LagCounters(size, w, lag) && IsChain(w.m.mem.desc, chain)
    ensures LagCounters(size, Expose(w, chain), lag)
  {
    hide RingSize, Reassemble, IsChain;
    WrapSuccessor(Exposed(w.h));
  }

  lemma WrongExpose(size: nat, w: World, chain: seq<nat>, lag: nat, e: nat)
    requires Wrong(size, w, lag, e) && CanExpose(size, w.m, chain)
    ensures Wrong(size, Expose(w, chain), lag, e)
  {
    ExposeLag(size, w, chain, lag);
    HeldGrows(size, w.m, chain);
    hide LagCounters, HeldOk, InUse, Reassemble, Slot;
    assert Expose(w, chain).h.sent[..|w.h.sent|] == w.h.sent;
  }

  lemma HeldShrinks(size: nat, held: map<nat, seq<nat>>, id: nat)
    requires HeldOk(size, held)
    ensures HeldOk(size, held - {id}) && |held| <= |held - {id}| + 1
  {
    assert (held - {id}).Keys == held.Keys - {id};
    assert |held.Keys - {id}| >= |held.Keys| - 1;
  }

  lemma ReclaimLag(size: nat, w: World, lag: nat)
    requires LagCounters(size, w, lag) && w.m.lastSeen != w.m.usedIdx
    ensures LagCounters(size, Reclaim(size, w), lag)
    ensures Reclaimed(w.h) < w.h.published
  {
    hide RingSize;
    WrapSuccessor(Reclaimed(w.h));
  }

  lemma WrongReclaim(size: nat, w: World, lag: nat, e: nat)
    requires Wrong(size, w, lag, e)
    ensures Wrong(size, Reclaim(size, w), lag, e)
  {
    if w.m.lastSeen != w.m.usedIdx {
      ReclaimLag(size, w, lag);
      SlotOfWrapped(size, Reclaimed(w.h));
      assert Slot(size, w.m.lastSeen) == Slot(size, Reclaimed(w.h));
      HeldShrinks(size, w.m.held, w.m.usedRing[Slot(size, w.m.lastSeen)].id);
      hide HeldOk, Wrap16, Slot;
    }
  }

  lemma WrongDriver(size: nat, w: World, lag: nat, e: nat, move: Move, w': World)
    requires size > 0 && Wrong(size, w, lag, e) && DriverMove(move) && Next(size, w, move, w')
    ensures Wrong(size, w', lag, e)
  {
    hide Wrong, Scribble, CanExpose, Expose, Reclaim;
    match move
    case ScribbleMove => WrongScribble(size, w, w', lag, e);
    case ExposeMove(chain) => WrongExpose(size, w, chain, lag, e);
    case ReclaimMove => WrongReclaim(size, w, lag, e);
  }

  // ----- the second store -----

  lemma StoreAvailCounts(w: World)
    requires w.h.published <= Consumed(w.h)
    ensures Consumed(StoreAvail(w).h) == w.h.published == StoreAvail(w).h.published
  {
  }

  lemma SecondStoreInStep(size: nat, w: World)
    requires Inv(size, w) && !w.m.pc.Halted?
    ensures w.m.usedIdx == w.m.lastUsed == w.m.lastAvail ==> Inv(size, StoreAvail(w))
    ensures ResumesExactly(size, StoreAvail(w)) ==> w.m.usedIdx == w.m.lastUsed == w.m.lastAvail
    ensures w.m.usedIdx == w.m.lastUsed && !InHand(w.m.pc) ==> w.m.usedIdx == w.m.lastAvail
  {
    hide Intact, HeldIsOutstanding, AvailSlots, UsedSlots, HarvestedInOrder, ReceivedInOrder, LogBalances, AtPc;
    hide ReturnedInOrder;
    InvCounters(size, w);
    WrapDecidesEquality(w.h.published, Consumed(w.h));
    hide Wrap16;
    if w.h.published == Consumed(w.h) {
      assert w.h.received[..w.h.published] == w.h.received;
      assert w.h.replayed + w.h.received[w.h.published..] == w.h.replayed;
      assert StoreAvail(w) == w;
    }
  }

  /** With an entry in hand the thread does not resume at the first unpublished one. */
  lemma SecondStoreInHand(size: nat, w: World, lag: nat)
    requires Mid(size, w, lag) && InHand(w.m.pc)
    ensures !ResumesExactly(size, StoreAvail(w))
  {
    hide Intact, HeldIsOutstanding, AvailSlots, UsedSlots, HarvestedInOrder, ReceivedInOrder, LogBalances, OnChain;
    hide ReturnedInOrder;
    if !w.m.pc.BumpUsed? {
      OutstandingHeadsDiffer(size, Mended(w), w.h.published, Consumed(w.h));
    }
  }

  lemma SecondStoreMid(size: nat, w: World, lag: nat)
    requires Mid(size, w, lag) && !w.m.pc.Halted? && !InHand(w.m.pc)
    ensures w.m.usedIdx == w.m.lastUsed ==> Inv(size, StoreAvail(w))
  {
    hide Intact, HeldIsOutstanding, AvailSlots, HarvestedInOrder, ReceivedInOrder, LogBalances;
    LogTakesBack(w.h.log, w.h.received, w.h.replayed, w.h.published);
    ReceivedPrefix(w.h.sent, w.h.received, w.h.published);
  }

  /** Once a slot was picked behind its entry, no second store lets the thread resume exactly. */
  lemma SecondStoreWrong(size: nat, w: World, lag: nat, e: nat)
    requires Wrong(size, w, lag, e) && !w.m.pc.Halted?
    ensures !ResumesExactly(size, StoreAvail(w)) && w.m.usedIdx != w.m.lastAvail
  {
    HeldFits(size, w.m.held);
    hide HeldOk;
    WrapDecidesEquality(w.h.published, Consumed(w.h));
    WrapDecidesEquality(w.h.published, UsedCount(w, lag));
    hide Wrap16;
  }

  // ----- whole sessions -----

  /** What is known at every point of a session whose reloads so far were harmless. */
  ghost predicate SessionInv(size: nat, s: Session) {
    match s.ctl
    case Idle => Inv(size, s.w)
    case Half(lag, first) =>
      if lag == 0 then Inv(size, s.w)
      else if first.None? then Mid(size, s.w, lag)
      else Wrong(size, s.w, lag, first.value)
  }

  lemma MidIsUnpublished(size: nat, w: World, lag: nat)
    requires Mid(size, w, lag)
    ensures w.m.usedIdx != w.m.lastAvail
  {
    hide Inv;
    InvCounters(size, Mended(w));
    WrapDecidesEquality(w.h.published, Consumed(w.h));
  }

  lemma SessionCounts(size: nat, s: Session)
    requires SessionInv(size, s)
    ensures s.w.h.published <= Consumed(s.w.h)
  {
    hide Inv;
    match s.ctl
    case Idle => InvCounters(size, s.w);
    case Half(lag, first) =>
      if lag == 0 {
        InvCounters(size, s.w);
      }
  }

  /** After the second store the thread resumes exactly, and the queue is in order, iff it was harmless. */
  lemma SecondStoreIsExact(size: nat, s: Session)
    requires SessionInv(size, s) && s.ctl.Half? && !s.w.m.pc.Halted?
    ensures ResumesExactly(size, StoreAvail(s.w)) <==> Harmless(s)
    ensures Inv(size, StoreAvail(s.w)) <==> Harmless(s)
  {
    var w, lag := s.w, s.ctl.lag;
    assert ResumesExactly(size, StoreAvail(w)) ==> w.m.usedIdx == w.m.lastUsed;
    SessionCounts(size, s);
    StoreAvailCounts(w);
    hide Inv, Mid, Wrong, StoreAvail, ResumesExactly;
    if Inv(size, StoreAvail(w)) {
      InvResumes(size, StoreAvail(w));
    }
    if lag == 0 {
      SecondStoreInStep(size, w);
    } else if s.ctl.first.Some? {
      SecondStoreWrong(size, w, lag, s.ctl.first.value);
    } else {
      MidIsUnpublished(size, w, lag);
      if InHand(w.m.pc) {
        SecondStoreInHand(size, w, lag);
      } else {
        SecondStoreMid(size, w, lag);
      }
    }
    if Inv(size, StoreAvail(w)) {
      InvResumes(size, StoreAvail(w));
    }
  }

  lemma HalfStep(size: nat, s: Session, move: Move, s': Session)
    requires size > 0 && SessionInv(size, s) && s.ctl.Half? && s.ctl.lag > 0 && SessionNext(size, s, Step(move), s')
    ensures SessionInv(size, s')
  {
    hide Inv, Mid, Wrong, DeviceStep, Scribble, CanExpose, Expose, Reclaim;
    var w, lag, first := s.w, s.ctl.lag, s.ctl.first;
    if move.DeviceMove? {
      if first.Some? {
        WrongDevice(size, w, lag, first.value);
      } else if w.m.pc.PickSlot? {
        PickSlotGoesWrong(size, w, lag);
      } else {
        MidDevice(size, w, lag);
      }
    } else if first.Some? {
      WrongDriver(size, w, lag, first.value, move, s'.w);
    } else {
      MidDriver(size, w, lag, move, s'.w);
    }
  }

  lemma SessionStep(size: nat, s: Session, e: Event, s': Session)
    requires size > 0 && SessionInv(size, s) && SessionNext(size, s, e, s')
    requires e.LoadAvail? ==> Harmless(s)
    ensures SessionInv(size, s')
  {
    hide Inv, Mid, Wrong, Next, StoreUsed, StoreAvail, Harmless;
    match e
    case Step(move) =>
      if s.ctl.Half? && s.ctl.lag > 0 {
        HalfStep(size, s, move, s');
      } else {
        NextKeepsInv(size, s.w, move, s'.w);
      }
    case LoadUsed => LoadUsedStartsMid(size, s.w);
    case LoadAvail => SecondStoreIsExact(size, s);
  }

  /** Every reload completed before time k met the condition. */
  ghost predicate HarmlessBefore(ss: seq<Session>, es: seq<Event>, k: nat)
    requires k <= |es| < |ss|
  {
    forall j | 0 <= j < k && es[j].LoadAvail? :: Harmless(ss[j])
  }

  lemma {:induction false} SessionIsSafe(size: nat, ss: seq<Session>, es: seq<Event>, k: nat)
    requires RingSize(size) && SessionRun(size, ss, es) && k <= |es| && HarmlessBefore(ss, es, k)
    ensures SessionInv(size, ss[k])
    ensures ss[k].ctl.Idle? ==> Inv(size, ss[k].w)
  {
    hide Inv, Harmless, SessionNext;
    if k == 0 {
      InitEstablishesInv(size, ss[0].w);
    } else {
      var j := k - 1;
      SessionIsSafe(size, ss, es, j);
      assert SessionNext(size, ss[j], es[j], ss[j + 1]);
      hide SessionInv;
      SessionStep(size, ss[j], es[j], ss[j + 1]);
    }
  }

  /** Outside a message, and while all reloads were harmless, the queue is in order. */
  lemma SessionIsFifo(size: nat, ss: seq<Session>, es: seq<Event>, k: nat)
    requires RingSize(size) && SessionRun(size, ss, es) && k <= |es| && HarmlessBefore(ss, es, k)
    requires ss[k].ctl.Idle?
    ensures var h := ss[k].w.h;
      && |h.harvested| <= h.published <= |h.received| <= |h.sent| <= |h.harvested| + size
      && TxRingRuns.HeadsOfPrefix(h.harvested, h.sent)
      && TxRingRuns.FramesOfPrefix(h.received, h.sent)
      && ss[k].w.m.driverOk
  {
    hide Inv, SessionNext;
    SessionIsSafe(size, ss, es, k);
    TxRingRuns.InvIsFifo(size, ss[k].w);
  }

  /**
   After a reload of a running queue the thread goes on exactly at the first unpublished entry if
   and only if the condition holds at the second store, whatever the thread and the driver did
   before, between and after earlier stores; and then the queue is in order.
   */
  lemma ReloadIsExact(size: nat, ss: seq<Session>, es: seq<Event>, k: nat)
    requires RingSize(size) && SessionRun(size, ss, es) && k < |es| && HarmlessBefore(ss, es, k)
    requires es[k].LoadAvail?
    ensures ResumesExactly(size, ss[k + 1].w) <==> Harmless(ss[k])
    ensures Harmless(ss[k]) ==> Inv(size, ss[k + 1].w)
  {
    hide Inv, Harmless, SessionInv, ResumesExactly;
    SessionIsSafe(size, ss, es, k);
    assert SessionNext(size, ss[k], es[k], ss[k + 1]);
    SecondStoreIsExact(size, ss[k]);
  }

  lemma HalfReceivedInOrder(size: nat, s: Session)
    requires SessionInv(size, s) && s.ctl.Half? && !s.w.m.pc.Halted? && Harmless(s)
    ensures ReceivedInOrder(s.w.h.sent, s.w.h.received) && s.w.h.published <= Consumed(s.w.h)
  {
    hide Intact, HeldIsOutstanding, AvailSlots, UsedSlots, HarvestedInOrder, ReceivedInOrder, LogBalances, AtPc;
    if s.ctl.lag > 0 && s.ctl.first.Some? {
      SecondStoreWrong(size, s.w, s.ctl.lag, s.ctl.first.value);
    }
  }

  /**
   A harmless reload skips nothing and replays exactly what was consumed and not published: the
   next entry served is the first unpublished one.
   */
  lemma HarmlessReloadReplays(size: nat, s: Session)
    requires SessionInv(size, s) && s.ctl.Half? && !s.w.m.pc.Halted? && Harmless(s)
    ensures var w, w' := s.w, StoreAvail(s.w);
      && Inv(size, w')
      && Consumed(w'.h) == w.h.published == w'.h.published <= Consumed(w.h)
      && w'.m.lastAvail == w'.m.lastUsed == w.m.usedIdx
      && w'.h.sent == w.h.sent && w'.h.harvested == w.h.harvested && w'.m.pc == w.m.pc
      && w'.h.replayed == w.h.replayed + w.h.received[w.h.published..]
      && TxRingRuns.AsFrames(w.h.received[w.h.published..])
         == TxRingRuns.Outcomes(w.h.sent)[w.h.published..Consumed(w.h)]
  {
    hide Inv, SessionInv;
    SecondStoreIsExact(size, s);
    HalfReceivedInOrder(size, s);
  }

  /**
   With nothing between the stores: the reload is right exactly when the thread has no entry in
   hand or there is nothing to reload.
   */
  lemma BackToBackIsExact(size: nat, w: World)
    requires Inv(size, w) && !w.m.pc.Halted?
    ensures ResumesExactly(size, StoreAvail(StoreUsed(w))) <==> !InHand(w.m.pc) || w.m.usedIdx == w.m.lastAvail
  {
    hide Inv, Mid, ResumesExactly, StoreAvail;
    LoadUsedStartsMid(size, w);
    SecondStoreIsExact(size, Session(StoreUsed(w), Half(Span(w.m.usedIdx, w.m.lastUsed), None)));
  }
}
