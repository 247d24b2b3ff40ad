/**
 The transmit queue as a concurrent machine: a driver and the dequeue thread of the backend
 take atomic steps on a shared split virtqueue (VirtIO 1.1, section 2.6), and the backend process
 may be replaced by a new one. Indices are the 16-bit values of the rings.
 */
module TxRing {
  import opened Words
  import opened Regions
  import opened Chains

  datatype UsedElem = UsedElem(id: nat, len: nat)

  /**
   Where the dequeue thread stands in its loops. PickSlot is the read of the used index, whose slot
   u the thread then keeps in a local variable; BumpAvail and BumpUsed are the two increments.
   */
  datatype Pc =
    | Check
    | Fetch
    | PickSlot(head: nat)
    | Walking(head: nat, u: nat, i: nat, buf: seq<Byte>)
    | StoreId(head: nat, u: nat, frame: seq<Byte>)
    | StoreLen(head: nat, u: nat, frame: seq<Byte>)
    | BumpAvail(head: nat, frame: seq<Byte>)
    | BumpUsed
    | Publish
    | Halted(fault: Fault)

  /**
   Shared memory, the thread's two indices, and the driver's own state: the chains it holds
   out by head, the used index it has read up to, and whether it ever read an id it had not
   made available.
   */
  datatype Machine = Machine(
    mem: Mem,
    availRing: seq<nat>, availIdx: nat,
    usedRing: seq<UsedElem>, usedIdx: nat,
    lastAvail: nat, lastUsed: nat, pc: Pc,
    held: map<nat, seq<nat>>, lastSeen: nat, driverOk: bool)

  /** One chain the driver made available, and what the walk makes of it. */
  datatype Entry = Entry(chain: seq<nat>, outcome: Outcome)

  /**
   What happened so far. No step reads it. received is the record of the entries that count as
   consumed, replayed the frames a restart or a reload took back, log every frame in the order received.
   */
  datatype History = History(
    sent: seq<Entry>, received: seq<seq<Byte>>, published: nat, harvested: seq<nat>,
    pos: nat, log: seq<seq<Byte>>, replayed: seq<seq<Byte>>)

  datatype World = World(m: Machine, h: History)

  function Head(e: Entry): nat {
    if e.chain == [] then 0 else e.chain[0]
  }

  function Slot(size: nat, n: nat): (r: nat)
    requires size > 0
    ensures r < size
  {
    n % size
  }

  /** Counting on from a wrapped index reaches the slots of the unwrapped counter. */
  lemma SlotOffset(size: nat, n: nat, k: nat)
    requires size > 0 && W16 % size == 0
    ensures Slot(size, Wrap16(n) + k) == Slot(size, n + k)
  {
    WrapOffset(n, k);
    hide Wrap16;
    SlotOfWrapped(size, Wrap16(n) + k);
    SlotOfWrapped(size, n + k);
  }

  ghost predicate Init(size: nat, w: World) {
    && |w.m.availRing| == |w.m.usedRing| == |w.m.mem.desc| == size
    && w.m.availIdx == w.m.usedIdx == w.m.lastAvail == w.m.lastUsed == w.m.lastSeen == 0
    && w.m.pc == Check && w.m.held == map[] && w.m.driverOk
    && w.h == History([], [], 0, [], 0, [], [])
  }

  /** One atomic step of the dequeue thread. */
  function DeviceStep(size: nat, w: World): World
    requires size > 0
  {
    var m, h := w.m, w.h;
    match m.pc
    case Check =>
      if m.lastAvail == m.availIdx then World(m.(pc := Publish), h)
      else World(m.(pc := Fetch), h)
    case Fetch =>
      var a := Slot(size, m.lastAvail);
      if a < |m.availRing| then World(m.(pc := PickSlot(m.availRing[a])), h)
      else World(m.(pc := Halted(BadIndex)), h)
    case PickSlot(head) =>
      World(m.(pc := Walking(head, Slot(size, m.lastUsed), head, [])), h.(pos := 0))
    case Walking(head, u, i, buf) =>
      (match WalkStep(m.mem, At(i, buf))
       case At(next, b) => World(m.(pc := Walking(head, u, next, b)), h.(pos := h.pos + 1))
       case Done(Rejected(f)) => World(m.(pc := Halted(f)), h)
       case Done(Frame(b)) => World(m.(pc := StoreId(head, u, b)), h))
    case StoreId(head, u, frame) =>
      if u < |m.usedRing| then
        World(m.(usedRing := m.usedRing[u := m.usedRing[u].(id := head)], pc := StoreLen(head, u, frame)), h)
      else World(m.(pc := Halted(BadIndex)), h)
    case StoreLen(head, u, frame) =>
      if u < |m.usedRing| then
        World(m.(usedRing := m.usedRing[u := m.usedRing[u].(len := 1)], pc := BumpAvail(head, frame)), h)
      else World(m.(pc := Halted(BadIndex)), h)
    case BumpAvail(head, frame) =>
      World(m.(lastAvail := Wrap16(m.lastAvail + 1), pc := BumpUsed),
            h.(received := h.received + [frame], log := h.log + [frame]))
    case BumpUsed =>
      World(m.(lastUsed := Wrap16(m.lastUsed + 1), pc := Check), h)
    case Publish =>
      World(m.(usedIdx := m.lastUsed, pc := Check),
            h.(published := h.published + Span(m.usedIdx, m.lastUsed)))
    case Halted(_) => w
  }

  /** Descriptors of the chains the driver holds out. */
  ghost predicate InUse(m: Machine, i: nat) {
    exists head :: head in m.held && i in m.held[head]
  }

  /**
   The driver prepares buffers: it may write every descriptor, buffer byte and available slot
   that it has not handed to the device.
   */
  ghost predicate Scribble(size: nat, w: World, w': World)
    requires size > 0
  {
    && w' == World(w.m.(mem := w'.m.mem, availRing := w'.m.availRing), w.h)
    && w'.m.mem.regions == w.m.mem.regions
    && |w'.m.mem.desc| == |w.m.mem.desc|
    && (forall i: nat | i < |w.m.mem.desc| && InUse(w.m, i) :: SameBuffer(w.m.mem, w'.m.mem, i))
    && |w'.m.availRing| == |w.m.availRing|
    && (forall k | 0 <= k < |w.m.availRing| ::
          w'.m.availRing[k] == w.m.availRing[k] || (|w.m.held| < size && k == Slot(size, w.m.availIdx)))
  }

  /** The driver makes a chain of free descriptors available by moving the available index. */
  ghost predicate CanExpose(size: nat, m: Machine, chain: seq<nat>)
    requires size > 0
  {
    && IsChain(m.mem.desc, chain)
    && (forall i | i in chain :: !InUse(m, i))
    && Slot(size, m.availIdx) < |m.availRing|
    && m.availRing[Slot(size, m.availIdx)] == chain[0]
  }

  function Expose(w: World, chain: seq<nat>): World
    requires IsChain(w.m.mem.desc, chain)
  {
    World(w.m.(availIdx := Wrap16(w.m.availIdx + 1), held := w.m.held[chain[0] := chain]),
          w.h.(sent := w.h.sent + [Entry(chain, Reassemble(w.m.mem, chain, []))]))
  }

  /** The driver takes the next used element back and frees the chain it names. */
  function Reclaim(size: nat, w: World): World
    requires size > 0
  {
    var u := Slot(size, w.m.lastSeen);
    if w.m.lastSeen == w.m.usedIdx || u >= |w.m.usedRing| then w
    else
      var id := w.m.usedRing[u].id;
      World(w.m.(lastSeen := Wrap16(w.m.lastSeen + 1),
                 held := w.m.held - {id},
                 driverOk := w.m.driverOk && id in w.m.held),
            w.h.(harvested := w.h.harvested + [id]))
  }

  /** The record when what was consumed but not published counts as not consumed. */
  function TakeBack(h: History): History {
    var keep := if h.published <= |h.received| then h.published else |h.received|;
    h.(received := h.received[..keep], replayed := h.replayed + h.received[keep..])
  }

  /**
   The backend process ends, on a fault or for any other reason, and a new one is connected: the
   ring addresses arrive before its dequeue thread starts, so both indices come from the used ring.
   */
  function Restart(w: World): World {
    World(w.m.(lastAvail := w.m.usedIdx, lastUsed := w.m.usedIdx, pc := Check), TakeBack(w.h))
  }

  datatype Move = DeviceMove | ScribbleMove | ExposeMove(chain: seq<nat>) | ReclaimMove | RestartMove

  predicate DriverMove(move: Move) {
    move.ScribbleMove? || move.ExposeMove? || move.ReclaimMove?
  }

  ghost predicate Next(size: nat, w: World, move: Move, w': World)
    requires size > 0
  {
    match move
    case DeviceMove => w' == DeviceStep(size, w)
    case ScribbleMove => Scribble(size, w, w')
    case ExposeMove(chain) => CanExpose(size, w.m, chain) && w' == Expose(w, chain)
    case ReclaimMove => w' == Reclaim(size, w)
    case RestartMove => w' == Restart(w)
  }

  /** A run from the empty queue: one move between every two worlds. */
  ghost predicate Run(size: nat, worlds: seq<World>, moves: seq<Move>)
    requires size > 0
  {
    && |worlds| == |moves| + 1
    && Init(size, worlds[0])
    && forall k | 0 <= k < |moves| :: Next(size, worlds[k], moves[k], worlds[k + 1])
  }
}
