/** What the transmit queue guarantees over whole runs. */
module TxRingRuns {
  import opened Words
  import opened Regions
  import opened Chains
  import opened TxRing
  import opened TxRingSafety

  function Heads(sent: seq<Entry>): (r: seq<nat>)
    ensures |r| == |sent|
    ensures forall n | 0 <= n < |sent| :: r[n] == Head(sent[n])
  {
    seq(|sent|, n requires 0 <= n < |sent| => Head(sent[n]))
  }

  function Outcomes(sent: seq<Entry>): (r: seq<Outcome>)
    ensures |r| == |sent|
    ensures forall n | 0 <= n < |sent| :: r[n] == sent[n].outcome
  {
    seq(|sent|, n requires 0 <= n < |sent| => sent[n].outcome)
  }

  function AsFrames(frames: seq<seq<Byte>>): (r: seq<Outcome>)
    ensures |r| == |frames|
    ensures forall n | 0 <= n < |frames| :: r[n] == Frame(frames[n])
  {
    seq(|frames|, n requires 0 <= n < |frames| => Frame(frames[n]))
  }

  /** The frames are those of the first entries, in order. */
  ghost predicate FramesOfPrefix(frames: seq<seq<Byte>>, sent: seq<Entry>) {
    |frames| <= |sent| && AsFrames(frames) == Outcomes(sent)[..|frames|]
  }

  /** The ids are the heads of the first entries, in order. */
  ghost predicate HeadsOfPrefix(ids: seq<nat>, sent: seq<Entry>) {
    |ids| <= |sent| && ids == Heads(sent)[..|ids|]
  }

  lemma InvIsFifo(size: nat, w: World)
    requires Inv(size, w)
    ensures size > 0
    ensures |w.h.harvested| <= w.h.published <= |w.h.received| <= |w.h.sent| <= |w.h.harvested| + size
    ensures HeadsOfPrefix(w.h.harvested, w.h.sent) && FramesOfPrefix(w.h.received, w.h.sent)
    ensures w.m.driverOk
  {
    hide AtPc, Intact, HeldIsOutstanding, AvailSlots, UsedSlots, LogBalances;
    RingNeverOverflows(w.m.mem, w.h.sent, Reclaimed(w.h));
  }

  /**
   At every point of every run: the ids the driver has read back are the heads it made
   available, in order and without gaps; the frames received are those of the same chains, in
   order; the counters never cross and the ring never overflows.
   */
  lemma QueueIsFifo(size: nat, worlds: seq<World>, moves: seq<Move>, k: nat)
    requires RingSize(size) && Run(size, worlds, moves) && k < |worlds|
    ensures var h := worlds[k].h;
      && |h.harvested| <= h.published <= |h.received| <= |h.sent| <= |h.harvested| + size
      && HeadsOfPrefix(h.harvested, h.sent)
      && FramesOfPrefix(h.received, h.sent)
      && worlds[k].m.driverOk
  {
    hide Inv, Run;
    RunIsSafe(size, worlds, moves, k);
    InvIsFifo(size, worlds[k]);
  }

  /** The thread stops the process only on a chain that the walk rejects. */
  lemma StopsOnlyOnRejected(size: nat, worlds: seq<World>, moves: seq<Move>, k: nat)
    requires RingSize(size) && Run(size, worlds, moves) && k < |worlds|
    requires worlds[k].m.pc.Halted?
    ensures var h := worlds[k].h;
      |h.received| < |h.sent| && h.sent[|h.received|].outcome == Rejected(worlds[k].m.pc.fault)
  {
    hide Run, Intact, HeldIsOutstanding, AvailSlots, UsedSlots, ReceivedInOrder, HarvestedInOrder, LogBalances;
    RunIsSafe(size, worlds, moves, k);
  }

  /** Entry n's used element stands in its slot. */
  ghost predicate ElementInPlace(size: nat, w: World, n: nat) {
    && |w.m.usedRing| == size > 0 && n < |w.h.sent|
    && w.m.usedRing[Slot(size, n)] == UsedElem(Head(w.h.sent[n]), 1)
  }

  lemma CountersGrow(size: nat, w: World, move: Move, w': World)
    requires size > 0 && Next(size, w, move, w') && w.h.published <= |w.h.received|
    ensures w'.h.published >= w.h.published
    ensures w.h.sent <= w'.h.sent && w.h.harvested <= w'.h.harvested
  {
    hide Scribble, CanExpose;
    match move
    case DeviceMove =>
    case ScribbleMove => assert w'.h == w.h by { ScribbleKeepsHistory(size, w, w'); }
    case ExposeMove(chain) => assert w' == Expose(w, chain) by { ExposeIsStep(size, w, chain, w'); }
    case ReclaimMove =>
    case RestartMove =>
  }

  lemma ScribbleKeepsHistory(size: nat, w: World, w': World)
    requires size > 0 && Scribble(size, w, w')
    ensures w'.h == w.h
  {
  }

  lemma ExposeIsStep(size: nat, w: World, chain: seq<nat>, w': World)
    requires size > 0 && Next(size, w, ExposeMove(chain), w')
    ensures IsChain(w.m.mem.desc, chain) && w' == Expose(w, chain)
  {
  }

  /** A used element that is published and not yet read back survives every step. */
  lemma UnreadUsedElementsSurvive(size: nat, w: World, move: Move, w': World, n: nat)
    requires Inv(size, w) && Next(size, w, move, w')
    requires Reclaimed(w'.h) <= n < w.h.published
    ensures ElementInPlace(size, w, n) && ElementInPlace(size, w', n)
    ensures Head(w'.h.sent[n]) == Head(w.h.sent[n])
  {
    hide Next, AtPc, Intact, HeldIsOutstanding, AvailSlots, ReceivedInOrder, HarvestedInOrder, LogBalances;
    NextKeepsInv(size, w, move, w');
    CountersGrow(size, w, move, w');
    assert w'.h.sent[n] == w.h.sent[n];
  }

  /** Without restarts every frame is received exactly once, in the order made available. */
  lemma {:induction false} ExactlyOnceWithoutRestart(size: nat, worlds: seq<World>, moves: seq<Move>, k: nat)
    requires RingSize(size) && Run(size, worlds, moves) && k < |worlds|
    requires forall j | 0 <= j < k :: !moves[j].RestartMove?
    ensures worlds[k].h.replayed == [] && worlds[k].h.log == worlds[k].h.received
    ensures FramesOfPrefix(worlds[k].h.log, worlds[k].h.sent)
  {
    QueueIsFifo(size, worlds, moves, k);
    if k > 0 {
      var j := k - 1;
      ExactlyOnceWithoutRestart(size, worlds, moves, j);
      assert Next(size, worlds[j], moves[j], worlds[j + 1]);
    }
  }

  /**
   A new backend process skips nothing and takes back exactly the entries consumed but not
   published, wherever the old one was when it ended: the next entry to serve is the first
   unpublished one, and the frames taken back are those of the entries from there on.
   */
  lemma RestartReplaysUnpublished(size: nat, w: World)
    requires Inv(size, w)
    ensures var w' := Restart(w);
      && Inv(size, w')
      && Consumed(w'.h) == w.h.published == w'.h.published
      && w'.h.sent == w.h.sent && w'.h.harvested == w.h.harvested
      && w'.h.replayed == w.h.replayed + w.h.received[w.h.published..]
      && AsFrames(w.h.received[w.h.published..]) == Outcomes(w.h.sent)[w.h.published..Consumed(w.h)]
      && w'.m.lastAvail == w'.m.lastUsed == w.m.usedIdx
  {
    hide AtPc, Intact, HeldIsOutstanding, AvailSlots, UsedSlots, HarvestedInOrder, LogBalances;
    RestartKeepsInv(size, w);
  }

  // ----- refinement of a first-in first-out queue -----

  /** The queue a reader has in mind: waiting, consumed but unpublished, published but unread. */
  datatype Fifo = Fifo(waiting: seq<Entry>, consumed: seq<Entry>, returned: seq<Entry>)

  /** What a step shows to the outside. */
  datatype Label =
    | Silent
    | Offer(e: Entry)
    | Consume(frame: seq<Byte>)
    | PublishAll
    | Take(id: nat)
    | PutBack

  ghost predicate FifoStep(f: Fifo, shown: Label, g: Fifo) {
    match shown
    case Silent => g == f
    case Offer(e) => g == f.(waiting := f.waiting + [e])
    case Consume(frame) =>
      && f.waiting != [] && f.waiting[0].outcome == Frame(frame)
      && g == f.(waiting := f.waiting[1..], consumed := f.consumed + [f.waiting[0]])
    case PublishAll => g == f.(consumed := [], returned := f.returned + f.consumed)
    case Take(id) => f.returned != [] && Head(f.returned[0]) == id && g == f.(returned := f.returned[1..])
    case PutBack => g == f.(waiting := f.consumed + f.waiting, consumed := [])
  }

  /** The chain an id stands for, and what the walk makes of it as memory stands. */
  function EntryOf(m: Machine, id: nat): Entry {
    if id in m.held && IndicesOf(m.mem.desc, m.held[id]) then Entry(m.held[id], Reassemble(m.mem, m.held[id], []))
    else Entry([], Rejected(BadIndex))
  }

  /** The heads in the available ring from the thread's index to the driver's. */
  function WaitingHeads(size: nat, m: Machine): (r: seq<nat>)
    requires |m.availRing| == size > 0
    ensures |r| == Span(m.lastAvail, m.availIdx)
    ensures forall k | 0 <= k < |r| :: r[k] == m.availRing[Slot(size, m.lastAvail + k)]
  {
    seq(Span(m.lastAvail, m.availIdx), k requires 0 <= k => m.availRing[Slot(size, m.lastAvail + k)])
  }

  /** The ids in the used ring between two indices. */
  function UsedIds(size: nat, m: Machine, lo: nat, hi: nat): (r: seq<nat>)
    requires |m.usedRing| == size > 0
    ensures |r| == Span(lo, hi)
    ensures forall k | 0 <= k < |r| :: r[k] == m.usedRing[Slot(size, lo + k)].id
  {
    seq<nat>(Span(lo, hi), k requires 0 <= k => m.usedRing[Slot(size, lo + k)].id)
  }

  function EntriesOf(m: Machine, ids: seq<nat>): (r: seq<Entry>)
    ensures |r| == |ids|
    ensures forall k | 0 <= k < |ids| :: r[k] == EntryOf(m, ids[k])
  {
    seq(|ids|, k requires 0 <= k < |ids| => EntryOf(m, ids[k]))
  }

  /** The queue in the rings and the driver's memory; the record of the run plays no part in it. */
  function Abstract(size: nat, m: Machine): Fifo
    requires |m.availRing| == |m.usedRing| == size > 0
  {
    Fifo(EntriesOf(m, WaitingHeads(size, m)),
         EntriesOf(m, UsedIds(size, m, m.usedIdx, m.lastAvail)),
         EntriesOf(m, UsedIds(size, m, m.lastSeen, m.usedIdx)))
  }

  /** What a move shows: the frame in the thread's buffer, the id the driver reads from the ring. */
  function LabelOf(size: nat, m: Machine, move: Move): Label
    requires |m.usedRing| == size > 0
  {
    match move
    case DeviceMove =>
      if m.pc.BumpAvail? then Consume(m.pc.frame) else if m.pc.Publish? then PublishAll else Silent
    case ScribbleMove => Silent
    case ExposeMove(chain) =>
      Offer(if IndicesOf(m.mem.desc, chain) then Entry(chain, Reassemble(m.mem, chain, []))
            else Entry([], Rejected(BadIndex)))
    case ReclaimMove => if m.lastSeen == m.usedIdx then Silent else Take(m.usedRing[Slot(size, m.lastSeen)].id)
    case RestartMove => PutBack
  }

  /** The same queue told from the record. */
  function OfRecord(h: History): Fifo
    requires InSequence(h)
  {
    Fifo(h.sent[|h.received|..], h.sent[h.published..|h.received|], h.sent[|h.harvested|..h.published])
  }

  predicate InSequence(h: History) {
    |h.harvested| <= h.published <= |h.received| <= |h.sent|
  }

  lemma HeldEntry(size: nat, w: World, n: nat)
    requires Inv(size, w) && Reclaimed(w.h) <= n < Exposed(w.h)
    ensures EntryOf(w.m, Head(w.h.sent[n])) == w.h.sent[n]
  {
    hide AtPc, AvailSlots, UsedSlots, ReceivedInOrder, HarvestedInOrder, LogBalances, Counters;
    assert IsChain(w.m.mem.desc, w.h.sent[n].chain);
  }

  lemma UsedIdsAreHeads(size: nat, w: World, lo: nat, hi: nat)
    requires Inv(size, w) && Reclaimed(w.h) <= lo <= hi <= Consumed(w.h)
    ensures EntriesOf(w.m, UsedIds(size, w.m, Wrap16(lo), Wrap16(hi))) == w.h.sent[lo..hi]
  {
    hide AtPc, Intact, HeldIsOutstanding, AvailSlots, ReceivedInOrder, HarvestedInOrder, LogBalances, EntryOf;
    RingNeverOverflows(w.m.mem, w.h.sent, Reclaimed(w.h));
    SpanOfCounters(lo, hi);
    hide Wrap16, Slot, Span, UsedIds;
    var ids := UsedIds(size, w.m, Wrap16(lo), Wrap16(hi));
    forall k | 0 <= k < hi - lo
      ensures EntryOf(w.m, ids[k]) == w.h.sent[lo..hi][k]
    {
      SlotOffset(size, lo, k);
      HeldEntry(size, w, lo + k);
    }
  }

  lemma WaitingAreHeads(size: nat, w: World)
    requires Inv(size, w)
    ensures EntriesOf(w.m, WaitingHeads(size, w.m)) == w.h.sent[Consumed(w.h)..]
  {
    hide AtPc, Intact, HeldIsOutstanding, UsedSlots, ReceivedInOrder, HarvestedInOrder, LogBalances, EntryOf;
    RingNeverOverflows(w.m.mem, w.h.sent, Reclaimed(w.h));
    var c := Consumed(w.h);
    SpanOfCounters(c, Exposed(w.h));
    hide Wrap16, Slot, Span, WaitingHeads;
    var ids := WaitingHeads(size, w.m);
    forall k | 0 <= k < Exposed(w.h) - c
      ensures EntryOf(w.m, ids[k]) == w.h.sent[c..][k]
    {
      SlotOffset(size, c, k);
      HeldEntry(size, w, c + k);
    }
  }

  /** The rings hold exactly the queue of the record. */
  lemma RingsHoldTheQueue(size: nat, w: World)
    requires Inv(size, w)
    ensures InSequence(w.h) && Abstract(size, w.m) == OfRecord(w.h)
  {
    hide AtPc, Intact, HeldIsOutstanding, AvailSlots, UsedSlots, ReceivedInOrder, HarvestedInOrder, LogBalances;
    hide EntriesOf, WaitingHeads, UsedIds;
    WaitingAreHeads(size, w);
    UsedIdsAreHeads(size, w, w.h.published, Consumed(w.h));
    UsedIdsAreHeads(size, w, Reclaimed(w.h), w.h.published);
  }

  lemma TakeOne(sent: seq<Entry>, lo: nat, mid: nat)
    requires lo <= mid < |sent|
    ensures sent[mid..][1..] == sent[mid + 1..] && sent[mid..][0] == sent[mid]
    ensures sent[lo..mid] + [sent[mid]] == sent[lo..mid + 1]
  {
  }

  lemma ConsumeRefines(h: History, h': History, frame: seq<Byte>)
    requires InSequence(h) && |h.received| < |h.sent| && h.sent[|h.received|].outcome == Frame(frame)
    requires h' == h.(received := h.received + [frame], log := h'.log)
    ensures FifoStep(OfRecord(h), Consume(frame), OfRecord(h'))
  {
    var f, g := OfRecord(h), OfRecord(h');
    TakeOne(h.sent, h.published, |h.received|);
    assert g == f.(waiting := f.waiting[1..], consumed := f.consumed + [f.waiting[0]]);
  }

  lemma PublishRefines(h: History)
    requires InSequence(h)
    ensures FifoStep(OfRecord(h), PublishAll, OfRecord(h.(published := |h.received|)))
  {
    var f, g := OfRecord(h), OfRecord(h.(published := |h.received|));
    assert g.returned == f.returned + f.consumed;
    assert g.consumed == [];
  }

  lemma DeviceRefines(size: nat, w: World)
    requires Inv(size, w)
    ensures Inv(size, DeviceStep(size, w))
    ensures FifoStep(OfRecord(w.h), LabelOf(size, w.m, DeviceMove), OfRecord(DeviceStep(size, w).h))
  {
    hide Intact, HeldIsOutstanding, AvailSlots, UsedSlots, ReceivedInOrder, HarvestedInOrder, LogBalances, WalkStep;
    hide FifoStep;
    DeviceKeepsInv(size, w);
    if w.m.pc.BumpAvail? {
      ConsumeRefines(w.h, DeviceStep(size, w).h, w.m.pc.frame);
    } else if w.m.pc.Publish? {
      PublishKeepsInv(size, w);
      PublishRefines(w.h);
    } else {
      StutterRefines(w.h, DeviceStep(size, w).h);
    }
  }

  lemma StutterRefines(h: History, h': History)
    requires InSequence(h) && h' == h.(pos := h'.pos)
    ensures FifoStep(OfRecord(h), Silent, OfRecord(h'))
  {
  }

  lemma DriverRefines(size: nat, w: World, move: Move, w': World)
    requires Inv(size, w) && Next(size, w, move, w') && Inv(size, w') && !move.DeviceMove?
    ensures FifoStep(OfRecord(w.h), LabelOf(size, w.m, move), OfRecord(w'.h))
  {
    hide AtPc, Intact, HeldIsOutstanding, AvailSlots, UsedSlots, ReceivedInOrder, HarvestedInOrder, LogBalances;
    hide Reassemble, Wrap16, SameBuffer, InUse, Slot;
    var f, g := OfRecord(w.h), OfRecord(w'.h);
    match move
    case ScribbleMove =>
    case ExposeMove(chain) =>
      var e := w'.h.sent[|w.h.sent|];
      assert g == f.(waiting := f.waiting + [e]);
    case ReclaimMove =>
      if w.m.lastSeen != w.m.usedIdx {
        ReclaimReadsOldest(size, w);
        assert Reclaimed(w'.h) == Reclaimed(w.h) + 1;
        assert g == f.(returned := f.returned[1..]);
      }
    case RestartMove =>
      assert g.waiting == f.consumed + f.waiting;
      assert g.consumed == [] && g.returned == f.returned;
  }

  lemma DeviceMoveIsStep(size: nat, w: World, w': World)
    requires size > 0 && Next(size, w, DeviceMove, w')
    ensures w' == DeviceStep(size, w)
  {
  }

  /**
   Every step of every run is a step of a first-in first-out queue read off the rings: what the
   thread consumes is the frame of the oldest waiting chain, and the id the driver reads is that
   of the oldest chain returned.
   */
  lemma RunRefinesFifo(size: nat, worlds: seq<World>, moves: seq<Move>, k: nat)
    requires RingSize(size) && Run(size, worlds, moves) && k < |moves|
    ensures Shape(size, worlds[k].m) && Shape(size, worlds[k + 1].m)
    ensures FifoStep(Abstract(size, worlds[k].m), LabelOf(size, worlds[k].m, moves[k]), Abstract(size, worlds[k + 1].m))
  {
    hide Inv, FifoStep, Next, Abstract, LabelOf, Shape;
    var w, w' := worlds[k], worlds[k + 1];
    RunIsSafe(size, worlds, moves, k);
    RunIsSafe(size, worlds, moves, k + 1);
    InvShape(size, w);
    InvShape(size, w');
    RingsHoldTheQueue(size, w);
    RingsHoldTheQueue(size, w');
    assert Next(size, w, moves[k], w');
    if moves[k].DeviceMove? {
      assert w' == DeviceStep(size, w) by { DeviceMoveIsStep(size, w, w'); }
      DeviceRefines(size, w);
    } else {
      DriverRefines(size, w, moves[k], w');
    }
  }

  lemma InvShape(size: nat, w: World)
    requires Inv(size, w)
    ensures Shape(size, w.m) && |w.m.availRing| == |w.m.usedRing| == size > 0
  {
    hide AtPc, Intact, HeldIsOutstanding, AvailSlots, UsedSlots, ReceivedInOrder, HarvestedInOrder, LogBalances;
  }
}
