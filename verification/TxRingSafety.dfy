/** The invariant of the transmit queue and its preservation by every step. */
module TxRingSafety {
  import opened Words
  import opened Regions
  import opened Chains
  import opened TxRing

  /** Unwrapped counters: entries made available, consumed, published, taken back. */
  function Exposed(h: History): nat { |h.sent| }
  function Consumed(h: History): nat { |h.received| }
  function Reclaimed(h: History): nat { |h.harvested| }

  predicate Shape(size: nat, m: Machine) {
    RingSize(size) && |m.availRing| == |m.usedRing| == |m.mem.desc| == size && m.driverOk
  }

  /** Between its two increments the thread's used index is one behind. */
  function Behind(pc: Pc): nat {
    if pc.BumpUsed? then 1 else 0
  }

  predicate Counters(w: World) {
    && Reclaimed(w.h) <= w.h.published && w.h.published + Behind(w.m.pc) <= Consumed(w.h) <= Exposed(w.h)
    && w.m.availIdx == Wrap16(Exposed(w.h))
    && w.m.lastAvail == Wrap16(Consumed(w.h))
    && w.m.lastUsed == Wrap16(Consumed(w.h) - Behind(w.m.pc))
    && w.m.usedIdx == Wrap16(w.h.published)
    && w.m.lastSeen == Wrap16(Reclaimed(w.h))
  }

  predicate NoShare(s: seq<nat>, t: seq<nat>) {
    forall x | x in s :: x !in t
  }

  /** The chains the driver holds out, entries lo onwards, are intact in memory and disjoint. */
  ghost predicate Intact(mem: Mem, sent: seq<Entry>, lo: nat) {
    && (forall n | lo <= n < |sent| ::
          IsChain(mem.desc, sent[n].chain) && Reassemble(mem, sent[n].chain, []) == sent[n].outcome)
    && (forall a, b | lo <= a < b < |sent| :: NoShare(sent[a].chain, sent[b].chain))
  }

  /** The driver's table is exactly the outstanding entries. */
  ghost predicate HeldIsOutstanding(held: map<nat, seq<nat>>, sent: seq<Entry>, lo: nat) {
    && (forall n | lo <= n < |sent| :: Head(sent[n]) in held && held[Head(sent[n])] == sent[n].chain)
    && (forall head | head in held :: exists n :: lo <= n < |sent| && Head(sent[n]) == head)
    && |held| + lo == |sent|
  }

  ghost predicate AvailSlots(size: nat, ring: seq<nat>, sent: seq<Entry>, lo: nat)
    requires |ring| == size > 0
  {
    forall n | lo <= n < |sent| :: ring[Slot(size, n)] == Head(sent[n])
  }

  /** Entries lo to hi have their used elements in place. */
  ghost predicate UsedSlots(size: nat, ring: seq<UsedElem>, sent: seq<Entry>, lo: nat, hi: nat)
    requires |ring| == size > 0 && hi <= |sent|
  {
    forall n | lo <= n < hi :: ring[Slot(size, n)] == UsedElem(Head(sent[n]), 1)
  }

  /** The frames received are those of the entries, in the order they were made available. */
  ghost predicate ReceivedInOrder(sent: seq<Entry>, received: seq<seq<Byte>>) {
    && |received| <= |sent|
    && forall n | 0 <= n < |received| :: sent[n].outcome == Frame(received[n])
  }

  /** The ids the driver read back are those of the entries, in the order made available. */
  ghost predicate HarvestedInOrder(sent: seq<Entry>, harvested: seq<nat>) {
    && |harvested| <= |sent|
    && forall n | 0 <= n < |harvested| :: harvested[n] == Head(sent[n])
  }

  /** Every frame ever received is either still counted as received or was taken back. */
  predicate LogBalances(log: seq<seq<Byte>>, received: seq<seq<Byte>>, replayed: seq<seq<Byte>>) {
    multiset(log) == multiset(received) + multiset(replayed)
  }

  /** What each point of the loop knows about the entry it is working on. */
  ghost predicate AtPc(size: nat, m: Machine, sent: seq<Entry>, c: nat, pos: nat)
    requires |m.usedRing| == size > 0
  {
    match m.pc
    case Check => true
    case Publish => true
    case Fetch => c < |sent|
    case PickSlot(head) => c < |sent| && head == Head(sent[c])
    case Walking(head, u, i, buf) =>
      c < |sent| && head == Head(sent[c]) && u == Slot(size, c) && OnChain(m.mem, sent[c], pos, i, buf)
    case StoreId(head, u, frame) =>
      c < |sent| && head == Head(sent[c]) && u == Slot(size, c) && sent[c].outcome == Frame(frame)
    case StoreLen(head, u, frame) =>
      && c < |sent| && head == Head(sent[c]) && u == Slot(size, c) && sent[c].outcome == Frame(frame)
      && m.usedRing[u].id == head
    case BumpAvail(head, frame) =>
      && c < |sent| && head == Head(sent[c]) && sent[c].outcome == Frame(frame)
      && m.usedRing[Slot(size, c)] == UsedElem(head, 1)
    case BumpUsed => true
    case Halted(f) => c < |sent| && sent[c].outcome == Rejected(f)
  }

  /** The walk stands on position pos of the entry's chain with buf copied so far. */
  ghost predicate OnChain(mem: Mem, e: Entry, pos: nat, i: nat, buf: seq<Byte>) {
    && IsChain(mem.desc, e.chain)
    && pos < |e.chain| && i == e.chain[pos] && |buf| < MAX_LEN
    && Reassemble(mem, e.chain[pos..], buf) == e.outcome
  }

  ghost predicate Inv(size: nat, w: World) {
    && Shape(size, w.m)
    && Counters(w)
    && Intact(w.m.mem, w.h.sent, Reclaimed(w.h))
    && HeldIsOutstanding(w.m.held, w.h.sent, Reclaimed(w.h))
    && AvailSlots(size, w.m.availRing, w.h.sent, Reclaimed(w.h))
    && UsedSlots(size, w.m.usedRing, w.h.sent, Reclaimed(w.h), Consumed(w.h))
    && ReceivedInOrder(w.h.sent, w.h.received)
    && HarvestedInOrder(w.h.sent, w.h.harvested)
    && LogBalances(w.h.log, w.h.received, w.h.replayed)
    && AtPc(size, w.m, w.h.sent, Consumed(w.h), w.h.pos)
  }

  // ----- the ring cannot overflow: the outstanding chains share a table of size descriptors -----

  function Below(size: nat): (r: set<nat>)
    ensures |r| == size
    ensures forall i: nat :: i in r <==> i < size
  {
    if size == 0 then {} else Below(size - 1) + {size - 1}
  }

  function Elements(s: seq<nat>): set<nat> {
    set x | x in s
  }

  /** The descriptors of entries lo to hi. */
  function Descriptors(sent: seq<Entry>, lo: nat, hi: nat): set<nat>
    requires lo <= hi <= |sent|
  {
    if lo == hi then {} else Descriptors(sent, lo, hi - 1) + Elements(sent[hi - 1].chain)
  }

  lemma {:induction false} DescriptorsMembers(sent: seq<Entry>, lo: nat, hi: nat, x: nat)
    requires lo <= hi <= |sent|
    ensures x in Descriptors(sent, lo, hi) <==> exists n :: lo <= n < hi && x in sent[n].chain
  {
    if lo < hi {
      DescriptorsMembers(sent, lo, hi - 1, x);
    }
  }

  lemma {:induction false} DisjointChainsCount(sent: seq<Entry>, lo: nat, hi: nat)
    requires lo <= hi <= |sent|
    requires forall n | lo <= n < hi :: sent[n].chain != []
    requires forall a, b | lo <= a < b < hi :: NoShare(sent[a].chain, sent[b].chain)
    ensures |Descriptors(sent, lo, hi)| >= hi - lo
  {
    if lo < hi {
      DisjointChainsCount(sent, lo, hi - 1);
      var rest := Descriptors(sent, lo, hi - 1);
      var x := sent[hi - 1].chain[0];
      DescriptorsMembers(sent, lo, hi - 1, x);
      assert x in sent[hi - 1].chain;
      assert forall n | lo <= n < hi - 1 :: NoShare(sent[n].chain, sent[hi - 1].chain);
      var all := Descriptors(sent, lo, hi);
      assert rest + {x} <= all;
      SubsetSize(rest + {x}, all);
    }
  }

  lemma SubsetSize<T>(s: set<T>, t: set<T>)
    requires s <= t
    ensures |s| <= |t|
  {
    assert t == s + (t - s);
  }

  /** At most size entries are outstanding; nothing in the protocol counts them. */
  lemma RingNeverOverflows(mem: Mem, sent: seq<Entry>, lo: nat)
    requires Intact(mem, sent, lo) && lo <= |sent|
    ensures |sent| - lo <= |mem.desc|
  {
    DisjointChainsCount(sent, lo, |sent|);
    forall x | x in Descriptors(sent, lo, |sent|)
      ensures x in Below(|mem.desc|)
    {
      DescriptorsMembers(sent, lo, |sent|, x);
      var n :| lo <= n < |sent| && x in sent[n].chain;
      assert IsChain(mem.desc, sent[n].chain);
      var k :| 0 <= k < |sent[n].chain| && sent[n].chain[k] == x;
    }
    SubsetSize(Descriptors(sent, lo, |sent|), Below(|mem.desc|));
  }

  // ----- steps of the dequeue thread -----

  lemma CheckKeepsInv(size: nat, w: World)
    requires Inv(size, w) && w.m.pc.Check?
    ensures Inv(size, DeviceStep(size, w))
  {
    hide Intact, HeldIsOutstanding, AvailSlots, UsedSlots, HarvestedInOrder, ReceivedInOrder, LogBalances;
    RingNeverOverflows(w.m.mem, w.h.sent, Reclaimed(w.h));
    WrapDecidesEquality(Consumed(w.h), Exposed(w.h));
  }

  lemma FetchKeepsInv(size: nat, w: World)
    requires Inv(size, w) && w.m.pc.Fetch?
    ensures Inv(size, DeviceStep(size, w))
  {
    hide Intact, HeldIsOutstanding, UsedSlots, HarvestedInOrder, ReceivedInOrder, LogBalances;
    SlotOfWrapped(size, Consumed(w.h));
  }

  lemma PickSlotKeepsInv(size: nat, w: World)
    requires Inv(size, w) && w.m.pc.PickSlot?
    ensures Inv(size, DeviceStep(size, w))
  {
    hide HeldIsOutstanding, AvailSlots, UsedSlots, HarvestedInOrder, ReceivedInOrder, LogBalances;
    var c := Consumed(w.h);
    SlotOfWrapped(size, c);
    assert w.h.sent[c].chain[0..] == w.h.sent[c].chain;
  }

  /** One step of the walk, on a chain: on to the next descriptor, or the outcome. */
  lemma WalkFollowsChain(mem: Mem, chain: seq<nat>, pos: nat, buf: seq<Byte>)
    requires IsChain(mem.desc, chain) && pos < |chain| && |buf| < MAX_LEN
    ensures var s := WalkStep(mem, At(chain[pos], buf));
            var outcome := Reassemble(mem, chain[pos..], buf);
            match s
            case At(i, b) =>
              && pos + 1 < |chain| && i == chain[pos + 1] && |b| < MAX_LEN
              && Reassemble(mem, chain[pos + 1..], b) == outcome
            case Done(o) => o == outcome
  {
    var rest := chain[pos..];
    assert rest[0] == chain[pos] && rest[1..] == chain[pos + 1..];
    if pos + 1 == |chain| {
      assert rest[1..] == [];
    }
  }

  lemma WalkKeepsInv(size: nat, w: World)
    requires Inv(size, w) && w.m.pc.Walking?
    ensures Inv(size, DeviceStep(size, w))
  {
    hide Intact, HeldIsOutstanding, AvailSlots, UsedSlots, HarvestedInOrder, ReceivedInOrder, LogBalances;
    WalkFollowsChain(w.m.mem, w.h.sent[Consumed(w.h)].chain, w.h.pos, w.m.pc.buf);
  }

  lemma StoreIdKeepsInv(size: nat, w: World)
    requires Inv(size, w) && w.m.pc.StoreId?
    ensures Inv(size, DeviceStep(size, w))
  {
    hide Intact, HeldIsOutstanding, AvailSlots, HarvestedInOrder, ReceivedInOrder, LogBalances;
    StoreTouchesOneSlot(size, w);
  }

  lemma StoreLenKeepsInv(size: nat, w: World)
    requires Inv(size, w) && w.m.pc.StoreLen?
    ensures Inv(size, DeviceStep(size, w))
  {
    hide Intact, HeldIsOutstanding, AvailSlots, HarvestedInOrder, ReceivedInOrder, LogBalances;
    StoreTouchesOneSlot(size, w);
  }

  /** The slot being written is the consumed counter's, and no unread element lives there. */
  lemma StoreTouchesOneSlot(size: nat, w: World)
    requires Inv(size, w) && Consumed(w.h) < Exposed(w.h)
    ensures forall n | Reclaimed(w.h) <= n < Consumed(w.h) :: Slot(size, n) != Slot(size, Consumed(w.h))
  {
    hide Intact, HeldIsOutstanding, AvailSlots, UsedSlots, HarvestedInOrder, ReceivedInOrder, LogBalances, AtPc;
    var c := Consumed(w.h);
    RingNeverOverflows(w.m.mem, w.h.sent, Reclaimed(w.h));
    forall n | Reclaimed(w.h) <= n < c
      ensures Slot(size, n) != Slot(size, c)
    {
      SlotsDiffer(size, n, c);
    }
  }

  lemma ReceivedGrows(sent: seq<Entry>, received: seq<seq<Byte>>, frame: seq<Byte>)
    requires ReceivedInOrder(sent, received)
    requires |received| < |sent| && sent[|received|].outcome == Frame(frame)
    ensures ReceivedInOrder(sent, received + [frame])
  {
  }

  lemma UsedGrows(size: nat, ring: seq<UsedElem>, sent: seq<Entry>, lo: nat, hi: nat)
    requires |ring| == size > 0 && hi < |sent| && UsedSlots(size, ring, sent, lo, hi)
    requires ring[Slot(size, hi)] == UsedElem(Head(sent[hi]), 1)
    ensures UsedSlots(size, ring, sent, lo, hi + 1)
  {
  }

  lemma LogGrows(log: seq<seq<Byte>>, received: seq<seq<Byte>>, replayed: seq<seq<Byte>>, frame: seq<Byte>)
    requires LogBalances(log, received, replayed)
    ensures LogBalances(log + [frame], received + [frame], replayed)
  {
  }

  lemma LogTakesBack(log: seq<seq<Byte>>, received: seq<seq<Byte>>, replayed: seq<seq<Byte>>, keep: nat)
    requires LogBalances(log, received, replayed) && keep <= |received|
    ensures LogBalances(log, received[..keep], replayed + received[keep..])
  {
    assert received == received[..keep] + received[keep..];
  }

  lemma BumpCounters(size: nat, w: World)
    requires Counters(w) && size > 0
    requires w.m.pc.BumpUsed? || (w.m.pc.BumpAvail? && Consumed(w.h) < Exposed(w.h))
    ensures Counters(DeviceStep(size, w))
  {
    WrapSuccessor(Consumed(w.h) - Behind(w.m.pc));
  }

  lemma BumpAvailKeepsInv(size: nat, w: World)
    requires Inv(size, w) && w.m.pc.BumpAvail?
    ensures Inv(size, DeviceStep(size, w))
  {
    hide Intact, HeldIsOutstanding, AvailSlots, UsedSlots, HarvestedInOrder, ReceivedInOrder, LogBalances;
    BumpCounters(size, w);
    ReceivedGrows(w.h.sent, w.h.received, w.m.pc.frame);
    UsedGrows(size, w.m.usedRing, w.h.sent, Reclaimed(w.h), Consumed(w.h));
    LogGrows(w.h.log, w.h.received, w.h.replayed, w.m.pc.frame);
  }

  lemma BumpUsedKeepsInv(size: nat, w: World)
    requires Inv(size, w) && w.m.pc.BumpUsed?
    ensures Inv(size, DeviceStep(size, w))
  {
    hide Intact, HeldIsOutstanding, AvailSlots, UsedSlots, HarvestedInOrder, ReceivedInOrder, LogBalances;
    BumpCounters(size, w);
  }

  /** What lies between the published and the thread's used index is what the batch consumed. */
  lemma SpanIsUnpublished(size: nat, w: World)
    requires Inv(size, w)
    ensures w.h.published + Span(w.m.usedIdx, w.m.lastUsed) == Consumed(w.h) - Behind(w.m.pc)
  {
    hide Intact, HeldIsOutstanding, AvailSlots, UsedSlots, HarvestedInOrder, ReceivedInOrder, LogBalances, AtPc;
    RingNeverOverflows(w.m.mem, w.h.sent, Reclaimed(w.h));
    SpanOfCounters(w.h.published, Consumed(w.h) - Behind(w.m.pc));
  }

  /** The store publishes all that was consumed. */
  lemma PublishKeepsInv(size: nat, w: World)
    requires Inv(size, w) && w.m.pc.Publish?
    ensures Inv(size, DeviceStep(size, w))
    ensures DeviceStep(size, w).h.published == Consumed(w.h)
  {
    hide Intact, HeldIsOutstanding, AvailSlots, UsedSlots, HarvestedInOrder, ReceivedInOrder, LogBalances;
    SpanIsUnpublished(size, w);
  }

  lemma DeviceKeepsInv(size: nat, w: World)
    requires Inv(size, w)
    ensures Inv(size, DeviceStep(size, w))
  {
    hide Inv;
    match w.m.pc
    case Check => CheckKeepsInv(size, w);
    case Fetch => FetchKeepsInv(size, w);
    case PickSlot(_) => PickSlotKeepsInv(size, w);
    case Walking(_, _, _, _) => WalkKeepsInv(size, w);
    case StoreId(_, _, _) => StoreIdKeepsInv(size, w);
    case StoreLen(_, _, _) => StoreLenKeepsInv(size, w);
    case BumpAvail(_, _) => BumpAvailKeepsInv(size, w);
    case BumpUsed => BumpUsedKeepsInv(size, w);
    case Publish => PublishKeepsInv(size, w);
    case Halted(_) =>
  }

  // ----- steps of the driver -----

  /** Every descriptor of an outstanding chain is in use, so scribbling leaves its buffer alone. */
  lemma ScribbleSparesChain(size: nat, w: World, w': World, n: nat)
    requires Inv(size, w) && Scribble(size, w, w')
    requires Reclaimed(w.h) <= n < Exposed(w.h)
    ensures IsChain(w'.m.mem.desc, w.h.sent[n].chain)
    ensures forall k | 0 <= k < |w.h.sent[n].chain| ::
              SameBuffer(w.m.mem, w'.m.mem, w.h.sent[n].chain[k])
  {
    var chain := w.h.sent[n].chain;
    assert IsChain(w.m.mem.desc, chain);
    forall k | 0 <= k < |chain|
      ensures SameBuffer(w.m.mem, w'.m.mem, chain[k])
    {
      var head := Head(w.h.sent[n]);
      assert head in w.m.held && w.m.held[head] == chain && chain[k] in w.m.held[head];
      assert InUse(w.m, chain[k]);
    }
  }

  lemma ScribbleKeepsIntact(size: nat, w: World, w': World)
    requires Inv(size, w) && Scribble(size, w, w')
    ensures Intact(w'.m.mem, w'.h.sent, Reclaimed(w'.h))
  {
    hide HeldIsOutstanding, AvailSlots, UsedSlots, HarvestedInOrder, ReceivedInOrder, LogBalances, AtPc;
    forall n | Reclaimed(w.h) <= n < Exposed(w.h)
      ensures IsChain(w'.m.mem.desc, w.h.sent[n].chain)
      ensures Reassemble(w'.m.mem, w.h.sent[n].chain, []) == w.h.sent[n].outcome
    {
      ScribbleSparesChain(size, w, w', n);
      ReassembleFrame(w.m.mem, w'.m.mem, w.h.sent[n].chain, []);
    }
  }

  lemma ScribbleKeepsSlots(size: nat, w: World, w': World)
    requires Inv(size, w) && Scribble(size, w, w')
    ensures AvailSlots(size, w'.m.availRing, w'.h.sent, Reclaimed(w'.h))
  {
    hide Intact, UsedSlots, HarvestedInOrder, ReceivedInOrder, LogBalances, AtPc;
    forall n | Reclaimed(w.h) <= n < Exposed(w.h)
      ensures w'.m.availRing[Slot(size, n)] == Head(w.h.sent[n])
    {
      SlotOfWrapped(size, Exposed(w.h));
      if |w.m.held| < size {
        SlotsDiffer(size, n, Exposed(w.h));
      }
    }
  }

  lemma OnChainFrame(mem: Mem, mem': Mem, e: Entry, pos: nat, i: nat, buf: seq<Byte>)
    requires OnChain(mem, e, pos, i, buf) && IsChain(mem'.desc, e.chain)
    requires forall k | 0 <= k < |e.chain| :: SameBuffer(mem, mem', e.chain[k])
    ensures OnChain(mem', e, pos, i, buf)
  {
    var rest := e.chain[pos..];
    assert forall k | 0 <= k < |rest| :: rest[k] == e.chain[pos + k];
    ReassembleFrame(mem, mem', rest, buf);
  }

  lemma ScribbleKeepsPc(size: nat, w: World, w': World)
    requires Inv(size, w) && Scribble(size, w, w')
    ensures AtPc(size, w'.m, w'.h.sent, Consumed(w'.h), w'.h.pos)
  {
    if w.m.pc.Walking? {
      var c := Consumed(w.h);
      ScribbleSparesChain(size, w, w', c);
      OnChainFrame(w.m.mem, w'.m.mem, w.h.sent[c], w.h.pos, w.m.pc.i, w.m.pc.buf);
    }
  }

  lemma ScribbleKeepsInv(size: nat, w: World, w': World)
    requires Inv(size, w) && Scribble(size, w, w')
    ensures Inv(size, w')
  {
    hide Intact, HeldIsOutstanding, AvailSlots, UsedSlots, HarvestedInOrder, ReceivedInOrder, LogBalances, AtPc;
    ScribbleKeepsIntact(size, w, w');
    ScribbleKeepsSlots(size, w, w');
    ScribbleKeepsPc(size, w, w');
  }

  lemma ExposeKeepsIntact(size: nat, w: World, chain: seq<nat>)
    requires Inv(size, w) && CanExpose(size, w.m, chain)
    ensures Intact(w.m.mem, Expose(w, chain).h.sent, Reclaimed(w.h))
    ensures chain[0] !in w.m.held
  {
    hide AvailSlots, UsedSlots, HarvestedInOrder, ReceivedInOrder, LogBalances, AtPc;
    var sent, sent' := w.h.sent, Expose(w, chain).h.sent;
    forall n | Reclaimed(w.h) <= n < |sent|
      ensures NoShare(sent[n].chain, chain)
    {
      forall x | x in sent[n].chain
        ensures x !in chain
      {
        assert Head(sent[n]) in w.m.held && x in w.m.held[Head(sent[n])];
        assert InUse(w.m, x);
      }
    }
    forall head | head in w.m.held
      ensures head != chain[0]
    {
      var n :| Reclaimed(w.h) <= n < |sent| && Head(sent[n]) == head;
      assert IsChain(w.m.mem.desc, sent[n].chain);
      assert head in sent[n].chain;
      assert InUse(w.m, head);
    }
  }

  lemma ExposeKeepsHeld(held: map<nat, seq<nat>>, sent: seq<Entry>, lo: nat, e: Entry)
    requires HeldIsOutstanding(held, sent, lo) && e.chain != [] && Head(e) !in held
    ensures HeldIsOutstanding(held[Head(e) := e.chain], sent + [e], lo)
  {
    var held', sent' := held[Head(e) := e.chain], sent + [e];
    assert |held'| == |held| + 1 by {
      assert held'.Keys == held.Keys + {Head(e)};
    }
    forall n | lo <= n < |sent'|
      ensures Head(sent'[n]) in held' && held'[Head(sent'[n])] == sent'[n].chain
    {
      assert n < |sent| ==> sent'[n] == sent[n];
    }
    forall head | head in held'
      ensures exists n :: lo <= n < |sent'| && Head(sent'[n]) == head
    {
      if head == Head(e) {
        assert sent'[|sent|] == e;
      } else {
        var n :| lo <= n < |sent| && Head(sent[n]) == head;
        assert sent'[n] == sent[n];
      }
    }
  }

  /** What the invariant says of old entries does not change when one is appended. */
  lemma AppendEntry(size: nat, ring: seq<UsedElem>, h: History, e: Entry)
    requires |ring| == size > 0
    requires ReceivedInOrder(h.sent, h.received) && HarvestedInOrder(h.sent, h.harvested)
    requires UsedSlots(size, ring, h.sent, Reclaimed(h), Consumed(h))
    ensures ReceivedInOrder(h.sent + [e], h.received) && HarvestedInOrder(h.sent + [e], h.harvested)
    ensures UsedSlots(size, ring, h.sent + [e], Reclaimed(h), Consumed(h))
  {
    assert forall n | 0 <= n < |h.sent| :: (h.sent + [e])[n] == h.sent[n];
  }

  /** The thread's knowledge depends only on what it works with. */
  lemma PcFrame(size: nat, m: Machine, m': Machine, sent: seq<Entry>, c: nat, pos: nat)
    requires |m.usedRing| == size > 0 && AtPc(size, m, sent, c, pos)
    requires m'.pc == m.pc && m'.mem == m.mem && m'.usedRing == m.usedRing
    ensures AtPc(size, m', sent, c, pos)
  {
  }

  lemma PcAppend(size: nat, m: Machine, sent: seq<Entry>, e: Entry, c: nat, pos: nat)
    requires |m.usedRing| == size > 0 && AtPc(size, m, sent, c, pos)
    ensures AtPc(size, m, sent + [e], c, pos)
  {
    assert c < |sent| ==> (sent + [e])[c] == sent[c];
  }

  lemma ExposeKeepsSlots(size: nat, ring: seq<nat>, sent: seq<Entry>, lo: nat, e: Entry)
    requires |ring| == size > 0 && AvailSlots(size, ring, sent, lo)
    requires ring[Slot(size, |sent|)] == Head(e)
    ensures AvailSlots(size, ring, sent + [e], lo)
  {
    assert forall n | 0 <= n < |sent| :: (sent + [e])[n] == sent[n];
  }

  lemma ExposeCounters(w: World, chain: seq<nat>)
    requires Counters(w) && IsChain(w.m.mem.desc, chain)
    ensures Counters(Expose(w, chain))
  {
    WrapSuccessor(Exposed(w.h));
  }

  lemma ExposeKeepsInv(size: nat, w: World, chain: seq<nat>)
    requires Inv(size, w) && CanExpose(size, w.m, chain)
    ensures Inv(size, Expose(w, chain))
  {
    hide Intact, HeldIsOutstanding, AvailSlots, UsedSlots, HarvestedInOrder, ReceivedInOrder, LogBalances, AtPc;
    var e := Entry(chain, Reassemble(w.m.mem, chain, []));
    ExposeKeepsIntact(size, w, chain);
    ExposeKeepsHeld(w.m.held, w.h.sent, Reclaimed(w.h), e);
    ExposeCounters(w, chain);
    SlotOfWrapped(size, Exposed(w.h));
    ExposeKeepsSlots(size, w.m.availRing, w.h.sent, Reclaimed(w.h), e);
    AppendEntry(size, w.m.usedRing, w.h, e);
    var w' := Expose(w, chain);
    PcFrame(size, w.m, w'.m, w.h.sent, Consumed(w.h), w.h.pos);
    PcAppend(size, w'.m, w.h.sent, e, Consumed(w.h), w.h.pos);
  }

  /** The id the driver reads next is that of the oldest outstanding entry. */
  lemma ReclaimReadsOldest(size: nat, w: World)
    requires Inv(size, w) && w.m.lastSeen != w.m.usedIdx
    ensures Reclaimed(w.h) < w.h.published
    ensures w.m.usedRing[Slot(size, w.m.lastSeen)].id == Head(w.h.sent[Reclaimed(w.h)])
    ensures Head(w.h.sent[Reclaimed(w.h)]) in w.m.held
  {
    hide Intact, AvailSlots, HarvestedInOrder, ReceivedInOrder, LogBalances, AtPc;
    RingNeverOverflows(w.m.mem, w.h.sent, Reclaimed(w.h));
    WrapDecidesEquality(Reclaimed(w.h), w.h.published);
    SlotOfWrapped(size, Reclaimed(w.h));
  }

  lemma HeadsDiffer(mem: Mem, sent: seq<Entry>, lo: nat, n: nat)
    requires Intact(mem, sent, lo) && lo < n < |sent|
    ensures Head(sent[n]) != Head(sent[lo])
  {
    assert NoShare(sent[lo].chain, sent[n].chain);
    assert IsChain(mem.desc, sent[lo].chain) && IsChain(mem.desc, sent[n].chain);
    assert sent[lo].chain[0] in sent[lo].chain;
    assert sent[n].chain[0] in sent[n].chain;
  }

  lemma ReclaimKeepsHeld(mem: Mem, held: map<nat, seq<nat>>, sent: seq<Entry>, lo: nat)
    requires HeldIsOutstanding(held, sent, lo) && Intact(mem, sent, lo) && lo < |sent|
    ensures HeldIsOutstanding(held - {Head(sent[lo])}, sent, lo + 1)
  {
    var id := Head(sent[lo]);
    assert |held - {id}| == |held| - 1 by {
      assert (held - {id}).Keys == held.Keys - {id};
    }
    forall n | lo + 1 <= n < |sent|
      ensures Head(sent[n]) != id
    {
      HeadsDiffer(mem, sent, lo, n);
    }
  }

  lemma ReclaimNarrows(size: nat, m: Machine, h: History)
    requires |m.availRing| == |m.usedRing| == size > 0
    requires Reclaimed(h) < Exposed(h) && Consumed(h) <= Exposed(h)
    requires Intact(m.mem, h.sent, Reclaimed(h))
    requires AvailSlots(size, m.availRing, h.sent, Reclaimed(h))
    requires UsedSlots(size, m.usedRing, h.sent, Reclaimed(h), Consumed(h))
    requires HarvestedInOrder(h.sent, h.harvested)
    ensures Intact(m.mem, h.sent, Reclaimed(h) + 1)
    ensures AvailSlots(size, m.availRing, h.sent, Reclaimed(h) + 1)
    ensures UsedSlots(size, m.usedRing, h.sent, Reclaimed(h) + 1, Consumed(h))
    ensures HarvestedInOrder(h.sent, h.harvested + [Head(h.sent[Reclaimed(h)])])
  {
  }

  lemma ReclaimCounters(size: nat, w: World)
    requires Counters(w) && size > 0 && Reclaimed(w.h) < w.h.published
    ensures Counters(Reclaim(size, w))
  {
    WrapSuccessor(Reclaimed(w.h));
  }

  lemma ReclaimKeepsInv(size: nat, w: World)
    requires Inv(size, w)
    ensures Inv(size, Reclaim(size, w))
  {
    hide Intact, HeldIsOutstanding, AvailSlots, UsedSlots, HarvestedInOrder, ReceivedInOrder, LogBalances, AtPc;
    if w.m.lastSeen != w.m.usedIdx {
      ReclaimReadsOldest(size, w);
      ReclaimKeepsHeld(w.m.mem, w.m.held, w.h.sent, Reclaimed(w.h));
      ReclaimCounters(size, w);
      ReclaimNarrows(size, w.m, w.h);
      PcFrame(size, w.m, Reclaim(size, w).m, w.h.sent, Consumed(w.h), w.h.pos);
    }
  }

  // ----- a new backend process -----

  lemma ReceivedPrefix(sent: seq<Entry>, received: seq<seq<Byte>>, keep: nat)
    requires ReceivedInOrder(sent, received) && keep <= |received|
    ensures ReceivedInOrder(sent, received[..keep])
  {
  }

  lemma RestartKeepsInv(size: nat, w: World)
    requires Inv(size, w)
    ensures Inv(size, Restart(w))
  {
    hide Intact, HeldIsOutstanding, AvailSlots, HarvestedInOrder, ReceivedInOrder, LogBalances;
    LogTakesBack(w.h.log, w.h.received, w.h.replayed, w.h.published);
    ReceivedPrefix(w.h.sent, w.h.received, w.h.published);
  }

  lemma NextKeepsInv(size: nat, w: World, move: Move, w': World)
    requires Inv(size, w) && Next(size, w, move, w')
    ensures Inv(size, w')
  {
    hide Inv, DeviceStep, Scribble, CanExpose, Expose, Reclaim, Restart;
    match move
    case DeviceMove => DeviceKeepsInv(size, w);
    case ScribbleMove => ScribbleKeepsInv(size, w, w');
    case ExposeMove(chain) => ExposeKeepsInv(size, w, chain);
    case ReclaimMove => ReclaimKeepsInv(size, w);
    case RestartMove => RestartKeepsInv(size, w);
  }

  lemma InitEstablishesInv(size: nat, w: World)
    requires RingSize(size) && Init(size, w)
    ensures Inv(size, w)
  {
  }

  /** Every world of every run satisfies the invariant. */
  lemma {:induction false} RunIsSafe(size: nat, worlds: seq<World>, moves: seq<Move>, k: nat)
    requires RingSize(size) && Run(size, worlds, moves) && k < |worlds|
    ensures Inv(size, worlds[k])
  {
    hide Inv, Next, Init;
    if k == 0 {
      InitEstablishesInv(size, worlds[0]);
    } else {
      var j := k - 1;
      RunIsSafe(size, worlds, moves, j);
      NextKeepsInv(size, worlds[j], moves[j], worlds[j + 1]);
    }
  }
}
