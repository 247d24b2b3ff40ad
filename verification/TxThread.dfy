/**
 The dequeue thread as the loop it is, with the driver taking any number of turns between
 every two of its memory accesses.
 */
module TxThread {
  import opened Wrappers
  import opened Words
  import opened Regions
  import opened Chains
  import opened TxRing
  import opened TxRingSafety
  import opened TxRingProgress
  import TxRingRuns

  /** Some number of driver moves lead from w to w'. */
  ghost predicate DriverRun(size: nat, w: World, w': World)
    requires size > 0
  {
    exists worlds: seq<World>, moves: seq<Move> :: DriverPath(size, worlds, moves, w, w')
  }

  ghost predicate DriverPath(size: nat, worlds: seq<World>, moves: seq<Move>, w: World, w': World)
    requires size > 0
  {
    && |worlds| == |moves| + 1 && worlds[0] == w && worlds[|moves|] == w'
    && forall k | 0 <= k < |moves| ::
         DriverMove(moves[k]) && Next(size, worlds[k], moves[k], worlds[k + 1])
  }

  /** What the thread may rely on across the driver's turns. */
  ghost predicate Undisturbed(size: nat, w: World, w': World) {
    && Inv(size, w')
    && w'.m == w.m.(mem := w'.m.mem, availRing := w'.m.availRing, availIdx := w'.m.availIdx,
                    held := w'.m.held, lastSeen := w'.m.lastSeen, driverOk := w'.m.driverOk)
    && w'.h == w.h.(sent := w'.h.sent, harvested := w'.h.harvested)
    && Rank(size, w') == Rank(size, w)
  }

  lemma DriverMoveUndisturbed(size: nat, w: World, move: Move, w': World)
    requires Inv(size, w) && DriverMove(move) && Next(size, w, move, w')
    ensures Undisturbed(size, w, w')
  {
    hide Inv, Rank, Next;
    TxRingRuns.InvShape(size, w);
    NextKeepsInv(size, w, move, w');
    DriverKeepsRank(size, w, move, w');
    DriverTouches(size, w, move, w');
  }

  /** The fields a driver move may change. */
  lemma DriverTouches(size: nat, w: World, move: Move, w': World)
    requires size > 0 && DriverMove(move) && Next(size, w, move, w')
    ensures w'.m == w.m.(mem := w'.m.mem, availRing := w'.m.availRing, availIdx := w'.m.availIdx,
                         held := w'.m.held, lastSeen := w'.m.lastSeen, driverOk := w'.m.driverOk)
    ensures w'.h == w.h.(sent := w'.h.sent, harvested := w'.h.harvested)
  {
    hide SameBuffer, InUse, Slot, Wrap16, Reassemble;
  }

  lemma {:induction false} DriverPathUndisturbed(size: nat, worlds: seq<World>, moves: seq<Move>, w: World, w': World)
    requires size > 0 && Inv(size, w) && DriverPath(size, worlds, moves, w, w')
    ensures Undisturbed(size, w, w')
    decreases |moves|
  {
    hide Inv, Next, Rank;
    if moves != [] {
      var n := |moves| - 1;
      var mid := worlds[n];
      assert DriverPath(size, worlds[..n + 1], moves[..n], w, mid);
      DriverPathUndisturbed(size, worlds[..n + 1], moves[..n], w, mid);
      DriverMoveUndisturbed(size, mid, moves[n], worlds[n + 1]);
    }
  }

  /** A driver: what it does to the world in its turn at time t. */
  type Driver = (nat, World) -> World

  ghost predicate Drives(size: nat, env: Driver)
    requires size > 0
  {
    forall t, w :: Inv(size, w) ==> DriverRun(size, w, env(t, w))
  }

  /** Drivers exist: the one that does nothing is one. */
  lemma IdleDriverDrives(size: nat)
    requires size > 0
    ensures Drives(size, (t, w) => w)
  {
    hide Inv, Next;
    var env: Driver := (t, w) => w;
    forall t: nat, w: World | Inv(size, w)
      ensures DriverRun(size, w, env(t, w))
    {
      assert DriverPath(size, [w], [], w, w);
    }
  }

  class DequeueThread {
    const size: nat
    const buf: array<Byte>

    // the rings, shared with the driver
    var mem: Mem
    var availRing: seq<nat>
    var availIdx: nat
    var usedRing: seq<UsedElem>
    var usedIdx: nat

    // the thread's view of the queue
    var lastAvailIdx: nat
    var lastUsedIdx: nat

    // the driver, and the record of the run
    var held: map<nat, seq<nat>>
    var lastSeen: nat
    var driverOk: bool
    var h: History
    var clock: nat

    /** The world with the thread standing at pc. */
    function Now(pc: Pc): World
      reads this
    {
      World(Machine(mem, availRing, availIdx, usedRing, usedIdx, lastAvailIdx, lastUsedIdx, pc,
                    held, lastSeen, driverOk), h)
    }

    ghost predicate Ready(pc: Pc)
      reads this
    {
      size > 0 && buf.Length == BUF_LEN && Inv(size, Now(pc))
    }

    constructor (size: nat, mem: Mem, availRing: seq<nat>, usedRing: seq<UsedElem>)
      requires RingSize(size) && |availRing| == |usedRing| == |mem.desc| == size
      ensures Ready(Check) && Init(size, Now(Check)) && this.size == size && fresh(buf)
    {
      this.size, this.buf := size, new Byte[BUF_LEN];
      this.mem, this.availRing, this.usedRing := mem, availRing, usedRing;
      availIdx, usedIdx, lastAvailIdx, lastUsedIdx, lastSeen, clock := 0, 0, 0, 0, 0, 0;
      held, driverOk, h := map[], true, History([], [], 0, [], 0, [], []);
    }

    /** The driver's turn while the thread stands at pc. */
    method DriverTurn(env: Driver, pc: Pc)
      requires Ready(pc) && Drives(size, env)
      modifies this
      ensures Ready(pc) && Undisturbed(size, old(Now(pc)), Now(pc))
    {
      hide Inv, Rank;
      var w := env(clock, Now(pc));
      assert DriverRun(size, Now(pc), w);
      ghost var worlds, moves :| DriverPath(size, worlds, moves, Now(pc), w);
      DriverPathUndisturbed(size, worlds, moves, Now(pc), w);
      clock := clock + 1;
      mem, availRing, availIdx := w.m.mem, w.m.availRing, w.m.availIdx;
      held, lastSeen, driverOk, h := w.m.held, w.m.lastSeen, w.m.driverOk, w.h;
    }

    /** One descriptor of the walk. */
    method WalkOnce(head: nat, u: nat, i: nat, len: nat)
      returns (fault: Option<Fault>, more: bool, next: nat, len': nat)
      requires size > 0 && buf.Length == BUF_LEN && len < MAX_LEN
      modifies this`h, buf
      ensures len' < MAX_LEN && (fault.Some? ==> !more)
      ensures Now(if fault.Some? then Halted(fault.value)
                  else if more then Walking(head, u, next, buf[..len'])
                  else StoreId(head, u, buf[..len']))
           == DeviceStep(size, old(Now(Walking(head, u, i, buf[..len]))))
      ensures h == old(h).(pos := h.pos)
    {
      hide Absorb;
      fault, more, next, len' := None, false, i, len;
      if i >= |mem.desc| {
        fault := Some(BadIndex);
      } else {
        fault, len' := CopyChunk(mem, i, buf, len);
        if fault.Some? {
          len' := len;
        } else if HasNext(mem.desc[i]) {
          more, next := true, mem.desc[i].next;
          h := h.(pos := h.pos + 1);
        } else if len' == 0 {
          fault := Some(EmptyFrame);
        }
      }
    }

    /** Follows the chain from head, the driver interfering between descriptors. */
    method Reassembly(env: Driver, head: nat, u: nat) returns (fault: Option<Fault>, len: nat)
      requires Ready(Walking(head, u, head, [])) && Drives(size, env)
      modifies this, buf
      ensures len < MAX_LEN
      ensures Ready(if fault.None? then StoreId(head, u, buf[..len]) else Halted(fault.value))
      ensures h.received == old(h.received) && h.published == old(h.published)
    {
      hide Inv, Rank, DeviceStep, Drives;
      var i: nat, more := head, true;
      fault, len := None, 0;
      assert buf[..len] == [];
      while more
        invariant len < MAX_LEN
        invariant Ready(if fault.Some? then Halted(fault.value)
                        else if more then Walking(head, u, i, buf[..len])
                        else StoreId(head, u, buf[..len]))
        invariant fault.Some? ==> !more
        invariant h.received == old(h.received) && h.published == old(h.published)
        decreases more, Rank(size, Now(Walking(head, u, i, buf[..len])))
      {
        ghost var pc := Walking(head, u, i, buf[..len]);
        DriverTurn(env, Walking(head, u, i, buf[..len]));
        DeviceKeepsInv(size, Now(pc));
        DeviceLowersRank(size, Now(pc));
        fault, more, i, len := WalkOnce(head, u, i, len);
      }
    }

    /** Writes the used element of the entry at hand, the driver interfering between the stores. */
    method Record(env: Driver, head: nat, u: nat, len: nat)
      requires len <= BUF_LEN && buf.Length == BUF_LEN && Ready(StoreId(head, u, buf[..len])) && Drives(size, env)
      modifies this
      ensures Ready(BumpAvail(head, buf[..len]))
      ensures h.received == old(h.received) && h.published == old(h.published)
    {
      hide Inv, Drives, Rank;
      DriverTurn(env, StoreId(head, u, buf[..len]));
      StoreIsInBounds(size, Now(StoreId(head, u, buf[..len])));
      DeviceKeepsInv(size, Now(StoreId(head, u, buf[..len])));
      usedRing := usedRing[u := usedRing[u].(id := head)];
      DriverTurn(env, StoreLen(head, u, buf[..len]));
      StoreIsInBounds(size, Now(StoreLen(head, u, buf[..len])));
      DeviceKeepsInv(size, Now(StoreLen(head, u, buf[..len])));
      usedRing := usedRing[u := usedRing[u].(len := 1)];
    }

    /** From the fetch of an available entry to the two index increments. */
    method Serve(env: Driver) returns (fault: Option<Fault>)
      requires Ready(Fetch) && Drives(size, env)
      modifies this, buf
      ensures Ready(if fault.None? then Check else Halted(fault.value))
      ensures h.published == old(h.published)
      ensures if fault.None? then |h.received| == |old(h.received)| + 1 && old(h.received) <= h.received
              else h.received == old(h.received)
    {
      hide Inv, Drives, Rank;
      var head, u := Begin(env);
      var len;
      fault, len := Reassembly(env, head, u);
      if fault.None? {
        Record(env, head, u, len);
        Bump(env, head, len);
      }
    }

    /** Reads the head of the entry and the slot it will be recorded in. */
    method Begin(env: Driver) returns (head: nat, u: nat)
      requires Ready(Fetch) && Drives(size, env)
      modifies this
      ensures Ready(Walking(head, u, head, []))
      ensures h.received == old(h.received) && h.published == old(h.published)
    {
      hide Inv, Drives, Rank;
      DriverTurn(env, Fetch);
      StoreIsInBounds(size, Now(Fetch));
      DeviceKeepsInv(size, Now(Fetch));
      head := availRing[Slot(size, lastAvailIdx)];
      DriverTurn(env, PickSlot(head));
      DeviceKeepsInv(size, Now(PickSlot(head)));
      u := Slot(size, lastUsedIdx);
      h := h.(pos := 0);
    }

    /** The two index increments. */
    method Bump(env: Driver, head: nat, len: nat)
      requires len <= BUF_LEN && buf.Length == BUF_LEN && Ready(BumpAvail(head, buf[..len])) && Drives(size, env)
      modifies this
      ensures Ready(Check)
      ensures h.received == old(h.received) + [buf[..len]] && h.published == old(h.published)
    {
      hide Inv, Drives, Rank;
      DriverTurn(env, BumpAvail(head, buf[..len]));
      DeviceKeepsInv(size, Now(BumpAvail(head, buf[..len])));
      lastAvailIdx := Wrap16(lastAvailIdx + 1);
      h := h.(received := h.received + [buf[..len]], log := h.log + [buf[..len]]);
      DriverTurn(env, BumpUsed);
      DeviceKeepsInv(size, Now(BumpUsed));
      lastUsedIdx := Wrap16(lastUsedIdx + 1);
    }

    /** The store that publishes the batch. */
    method PublishBatch(env: Driver)
      requires Ready(Publish) && Drives(size, env)
      modifies this
      ensures Ready(Check)
      ensures h.received == old(h.received) && h.published == |h.received|
    {
      hide Inv, Drives, Rank;
      DriverTurn(env, Publish);
      PublishKeepsInv(size, Now(Publish));
      h := h.(published := h.published + Span(usedIdx, lastUsedIdx));
      usedIdx := lastUsedIdx;
    }

    /** The test at the head of the inner loop. */
    method NothingAvailable(env: Driver) returns (empty: bool)
      requires Ready(Check) && Drives(size, env)
      modifies this
      ensures Ready(if empty then Publish else Fetch)
      ensures h.received == old(h.received) && h.published == old(h.published)
      ensures |h.received| + (if empty then 0 else 1) <= h.published + size
    {
      hide Inv, Drives, Rank;
      DriverTurn(env, Check);
      DeviceKeepsInv(size, Now(Check));
      empty := lastAvailIdx == availIdx;
      if empty {
        TxRingRuns.InvIsFifo(size, Now(Check));
      } else {
        FetchHasRoom(size, Now(Fetch));
      }
    }

    /**
     The inner loop and the publication that follows it. For every driver it ends; it leaves the
     queue in order, publishes all it consumed and consumes at most size entries, or it stops on
     the first rejected chain.
     */
    method Batch(env: Driver) returns (fault: Option<Fault>)
      requires Ready(Check) && Drives(size, env)
      modifies this, buf
      ensures Ready(if fault.None? then Check else Halted(fault.value))
      ensures h.published == if fault.None? then |h.received| else old(h.published)
      ensures old(h.received) <= h.received && |h.received| <= old(h.published) + size
    {
      hide Inv, Drives;
      var empty := NothingAvailable(env);
      while !empty
        invariant Ready(if empty then Publish else Fetch)
        invariant h.published == old(h.published) && old(h.received) <= h.received
        invariant |h.received| + (if empty then 0 else 1) <= h.published + size
        decreases h.published + size - |h.received| + if empty then 0 else 1
      {
        fault := Serve(env);
        if fault.Some? {
          return;
        }
        empty := NothingAvailable(env);
      }
      PublishBatch(env);
      fault := None;
    }
  }

  lemma FetchHasRoom(size: nat, w: World)
    requires Inv(size, w) && w.m.pc.Fetch?
    ensures |w.h.received| < w.h.published + size
  {
    hide Intact, HeldIsOutstanding, AvailSlots, UsedSlots, ReceivedInOrder, HarvestedInOrder, LogBalances;
    RingNeverOverflows(w.m.mem, w.h.sent, Reclaimed(w.h));
  }

  lemma StoreIsInBounds(size: nat, w: World)
    requires Inv(size, w)
    ensures |w.m.usedRing| == |w.m.availRing| == size
    ensures w.m.pc.StoreId? || w.m.pc.StoreLen? ==> w.m.pc.u < size
  {
    hide Intact, HeldIsOutstanding, AvailSlots, UsedSlots, ReceivedInOrder, HarvestedInOrder, LogBalances;
  }
}
