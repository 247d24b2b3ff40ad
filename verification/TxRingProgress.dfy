/** The batch loop of the dequeue thread ends, and every available chain comes back. */
module TxRingProgress {
  import opened Words
  import opened Regions
  import opened Chains
  import opened TxRing
  import opened TxRingSafety
  import TxRingRuns

  /** Steps left inside the entry being served. */
  function PcRank(size: nat, w: World): nat {
    match w.m.pc
    case Check => size + 7
    case Fetch => size + 6
    case PickSlot(_) => size + 5
    case Walking(_, _, _, _) =>
      if |w.h.received| < |w.h.sent| && w.h.pos <= |w.h.sent[|w.h.received|].chain|
      then |w.h.sent[|w.h.received|].chain| - w.h.pos + 4
      else 0
    case StoreId(_, _, _) => 4
    case StoreLen(_, _, _) => 3
    case BumpAvail(_, _) => 2
    case BumpUsed => size + 8
    case Publish => 0
    case Halted(_) => 0
  }

  /** Entries the batch may still consume: published + size bounds it, however fast the driver adds. */
  function Room(size: nat, w: World): nat {
    if |w.h.received| <= w.h.published + size then w.h.published + size - |w.h.received| else 0
  }

  function Rank(size: nat, w: World): nat {
    Room(size, w) * (size + 9) + PcRank(size, w)
  }

  /** A chain that ends is no longer than the table. */
  lemma ChainFitsTable(desc: seq<Desc>, chain: seq<nat>)
    requires IsChain(desc, chain)
    ensures |chain| <= |desc|
  {
    var ids := Elements(chain);
    forall a, b | 0 <= a < b < |chain|
      ensures chain[a] != chain[b]
    {
      ChainIsAcyclic(desc, chain, a, b);
    }
    DistinctCount(chain);
    assert ids <= Below(|desc|);
    SubsetSize(ids, Below(|desc|));
  }

  lemma {:induction false} DistinctCount(s: seq<nat>)
    requires forall a, b | 0 <= a < b < |s| :: s[a] != s[b]
    ensures |Elements(s)| == |s|
  {
    if s != [] {
      var rest, last := s[..|s| - 1], s[|s| - 1];
      DistinctCount(rest);
      assert Elements(s) == Elements(rest) + {last};
    } else {
      assert Elements(s) == {};
    }
  }

  lemma PcRankBounded(size: nat, w: World)
    requires Inv(size, w)
    ensures PcRank(size, w) <= size + 8
    ensures w.m.pc.Walking? ==> 5 <= PcRank(size, w) <= size + 4
  {
    hide Intact, HeldIsOutstanding, AvailSlots, UsedSlots, ReceivedInOrder, HarvestedInOrder, LogBalances;
    if w.m.pc.Walking? {
      ChainFitsTable(w.m.mem.desc, w.h.sent[|w.h.received|].chain);
    }
  }

  lemma WalkLowersRank(size: nat, w: World)
    requires Inv(size, w) && w.m.pc.Walking?
    ensures PcRank(size, DeviceStep(size, w)) < PcRank(size, w)
    ensures Room(size, DeviceStep(size, w)) == Room(size, w)
  {
    hide Intact, HeldIsOutstanding, AvailSlots, UsedSlots, ReceivedInOrder, HarvestedInOrder, LogBalances;
    PcRankBounded(size, w);
    WalkFollowsChain(w.m.mem, w.h.sent[|w.h.received|].chain, w.h.pos, w.m.pc.buf);
    hide WalkStep, Reassemble, IsChain;
  }

  lemma PickSlotLowersRank(size: nat, w: World)
    requires Inv(size, w) && w.m.pc.PickSlot?
    ensures PcRank(size, DeviceStep(size, w)) < PcRank(size, w)
    ensures Room(size, DeviceStep(size, w)) == Room(size, w)
  {
    hide Inv;
    DeviceKeepsInv(size, w);
    PcRankBounded(size, DeviceStep(size, w));
  }

  lemma BumpAvailLowersRoom(size: nat, w: World)
    requires Inv(size, w) && w.m.pc.BumpAvail?
    ensures Room(size, w) == Room(size, DeviceStep(size, w)) + 1
    ensures PcRank(size, DeviceStep(size, w)) == size + 8
  {
    hide Inv;
    TxRingRuns.InvIsFifo(size, w);
    DeviceKeepsInv(size, w);
    TxRingRuns.InvIsFifo(size, DeviceStep(size, w));
  }

  /** Every step of the thread inside a batch lowers the rank. */
  lemma DeviceLowersRank(size: nat, w: World)
    requires Inv(size, w) && !w.m.pc.Publish? && !w.m.pc.Halted?
    ensures Rank(size, DeviceStep(size, w)) < Rank(size, w)
  {
    hide Inv;
    TxRingRuns.InvIsFifo(size, w);
    var w' := DeviceStep(size, w);
    match w.m.pc
    case BumpAvail(_, _) =>
      BumpAvailLowersRoom(size, w);
      assert Room(size, w) * (size + 9) == Room(size, w') * (size + 9) + (size + 9);
    case Walking(_, _, _, _) => WalkLowersRank(size, w);
    case PickSlot(_) => PickSlotLowersRank(size, w);
    case _ =>
  }

  /** What the driver does leaves the thread's rank, place and counters alone. */
  lemma DriverKeepsRank(size: nat, w: World, move: Move, w': World)
    requires Inv(size, w) && DriverMove(move) && Next(size, w, move, w')
    ensures w'.m.pc == w.m.pc && w'.h.received == w.h.received && w'.h.published == w.h.published
    ensures Exposed(w.h) <= Exposed(w'.h)
    ensures Rank(size, w') == Rank(size, w)
  {
    hide Intact, HeldIsOutstanding, AvailSlots, UsedSlots, ReceivedInOrder, HarvestedInOrder, LogBalances;
    var c := |w.h.received|;
    assert c < |w.h.sent| ==> w'.h.sent[c] == w.h.sent[c];
  }

  // ----- finite runs: a batch is bounded -----

  function DeviceMoves(moves: seq<Move>): nat {
    if moves == [] then 0
    else DeviceMoves(moves[..|moves| - 1]) + if moves[|moves| - 1].DeviceMove? then 1 else 0
  }

  /** From world a to world b the thread stays inside one batch. */
  ghost predicate WithinBatch(worlds: seq<World>, moves: seq<Move>, a: nat, b: nat)
    requires a <= b <= |moves| < |worlds|
  {
    forall k | a <= k < b ::
      DriverMove(moves[k]) || (moves[k].DeviceMove? && !worlds[k].m.pc.Publish? && !worlds[k].m.pc.Halted?)
  }

  lemma {:induction false} BatchSpendsRank(size: nat, worlds: seq<World>, moves: seq<Move>, a: nat, b: nat)
    requires RingSize(size) && Run(size, worlds, moves) && a <= b <= |moves|
    requires WithinBatch(worlds, moves, a, b)
    ensures Rank(size, worlds[b]) + DeviceMoves(moves[a..b]) <= Rank(size, worlds[a])
    decreases b
  {
    hide Rank, Inv, Next;
    if a < b {
      var j := b - 1;
      BatchSpendsRank(size, worlds, moves, a, j);
      RunIsSafe(size, worlds, moves, j);
      assert Next(size, worlds[j], moves[j], worlds[j + 1]);
      assert moves[a..b][..|moves[a..b]| - 1] == moves[a..j];
      if moves[j].DeviceMove? {
        TxRingRuns.DeviceMoveIsStep(size, worlds[j], worlds[j + 1]);
        DeviceLowersRank(size, worlds[j]);
      } else {
        DriverKeepsRank(size, worlds[j], moves[j], worlds[j + 1]);
      }
    }
  }

  lemma RowOf(row: nat, rows: nat, width: nat, column: nat)
    requires row <= rows && column < width
    ensures row * width + column < (rows + 1) * width
  {
    assert (rows - row) * width >= 0;
    assert (rows + 1) * width == row * width + (rows - row) * width + width;
  }

  lemma RankBounded(size: nat, w: World)
    requires Inv(size, w)
    ensures Rank(size, w) < (size + 1) * (size + 9)
  {
    hide Inv;
    PcRankBounded(size, w);
    TxRingRuns.InvIsFifo(size, w);
    assert Room(size, w) <= size;
    hide Room, PcRank;
    RowOf(Room(size, w), size, size + 9, PcRank(size, w));
  }

  /**
   However the driver interleaves, the thread takes fewer than (size + 1) * (size + 9) steps
   between two publications of the used index, and consumes at most size entries.
   */
  lemma BatchEnds(size: nat, worlds: seq<World>, moves: seq<Move>, a: nat, b: nat)
    requires RingSize(size) && Run(size, worlds, moves) && a <= b <= |moves|
    requires WithinBatch(worlds, moves, a, b)
    ensures DeviceMoves(moves[a..b]) < (size + 1) * (size + 9)
    ensures |worlds[b].h.received| <= worlds[b].h.published + size
  {
    hide Inv, Rank, Next;
    BatchSpendsRank(size, worlds, moves, a, b);
    RunIsSafe(size, worlds, moves, a);
    RunIsSafe(size, worlds, moves, b);
    RankBounded(size, worlds[a]);
    TxRingRuns.InvIsFifo(size, worlds[b]);
  }

  // ----- infinite runs: every available chain comes back -----

  ghost predicate ScheduledAfter(moves: nat -> Move, k: nat) {
    exists j: nat :: k <= j && moves(j).DeviceMove?
  }

  /** A never-ending run without restarts in which the thread keeps being scheduled. */
  ghost predicate FairRun(size: nat, worlds: nat -> World, moves: nat -> Move)
    requires size > 0
  {
    && Inv(size, worlds(0))
    && (forall k: nat :: Next(size, worlds(k), moves(k), worlds(k + 1)))
    && (forall k: nat :: DriverMove(moves(k)) || moves(k).DeviceMove?)
    && (forall k: nat :: ScheduledAfter(moves, k))
  }

  lemma {:induction false} FairRunIsSafe(size: nat, worlds: nat -> World, moves: nat -> Move, k: nat)
    requires size > 0 && FairRun(size, worlds, moves)
    ensures Inv(size, worlds(k))
  {
    hide Inv, Next;
    if k > 0 {
      FairRunIsSafe(size, worlds, moves, k - 1);
      NextKeepsInv(size, worlds(k - 1), moves(k - 1), worlds(k - 1 + 1));
    }
  }

  lemma NextOf(size: nat, worlds: nat -> World, moves: nat -> Move, k: nat)
    requires size > 0 && FairRun(size, worlds, moves)
    ensures Inv(size, worlds(k)) && Next(size, worlds(k), moves(k), worlds(k + 1))
    ensures DriverMove(moves(k)) || moves(k).DeviceMove?
  {
    hide Inv, Next;
    FairRunIsSafe(size, worlds, moves, k);
  }

  /** The thread's next step after time t finds it where it was. */
  lemma NextDeviceMove(size: nat, worlds: nat -> World, moves: nat -> Move, t: nat) returns (j: nat)
    requires size > 0 && FairRun(size, worlds, moves)
    ensures t <= j && moves(j).DeviceMove?
    ensures worlds(j).m.pc == worlds(t).m.pc && worlds(j).h.received == worlds(t).h.received
    ensures Exposed(worlds(t).h) <= Exposed(worlds(j).h)
    ensures Rank(size, worlds(j)) == Rank(size, worlds(t))
  {
    hide Inv, Next, Rank;
    assert ScheduledAfter(moves, t);
    var last: nat :| t <= last && moves(last).DeviceMove?;
    j := t;
    while !moves(j).DeviceMove?
      invariant t <= j <= last
      invariant worlds(j).m.pc == worlds(t).m.pc && worlds(j).h.received == worlds(t).h.received
      invariant Exposed(worlds(t).h) <= Exposed(worlds(j).h)
      invariant Rank(size, worlds(j)) == Rank(size, worlds(t))
      decreases last - j
    {
      NextOf(size, worlds, moves, j);
      DriverKeepsRank(size, worlds(j), moves(j), worlds(j + 1));
      j := j + 1;
    }
  }

  lemma DeviceMoveOf(size: nat, worlds: nat -> World, moves: nat -> Move, j: nat)
    requires size > 0 && FairRun(size, worlds, moves) && moves(j).DeviceMove?
    ensures Inv(size, worlds(j)) && worlds(j + 1) == DeviceStep(size, worlds(j))
  {
    hide Inv, DeviceStep, FairRun;
    NextOf(size, worlds, moves, j);
  }

  lemma DeviceStepEffect(size: nat, w: World)
    requires Inv(size, w) && !w.m.pc.Halted?
    ensures var w' := DeviceStep(size, w);
      && Exposed(w'.h) == Exposed(w.h)
      && Consumed(w.h) <= Consumed(w'.h)
      && (w'.m.pc.Publish? ==> Consumed(w'.h) == Exposed(w'.h))
      && (w.m.pc.Publish? ==> w'.m.pc.Check? && w'.h.published == Consumed(w.h))
  {
    hide Intact, HeldIsOutstanding, AvailSlots, UsedSlots, ReceivedInOrder, HarvestedInOrder, LogBalances, WalkStep;
    if w.m.pc.Publish? {
      PublishKeepsInv(size, w);
    }
    RingNeverOverflows(w.m.mem, w.h.sent, Reclaimed(w.h));
    WrapDecidesEquality(Consumed(w.h), Exposed(w.h));
  }

  /** From inside a batch the thread reaches the publication with every entry of time t consumed. */
  lemma {:induction false} BatchDrains(size: nat, worlds: nat -> World, moves: nat -> Move, t: nat) returns (p: nat)
    requires size > 0 && FairRun(size, worlds, moves)
    requires !worlds(t).m.pc.Publish?
    ensures t <= p
    ensures worlds(p).m.pc.Halted? || (worlds(p).m.pc.Publish? && Exposed(worlds(t).h) <= Consumed(worlds(p).h))
    decreases Rank(size, worlds(t))
  {
    hide Inv, Next, Rank, DeviceStep, FairRun;
    if worlds(t).m.pc.Halted? {
      return t;
    }
    var j := NextDeviceMove(size, worlds, moves, t);
    DeviceMoveOf(size, worlds, moves, j);
    DeviceLowersRank(size, worlds(j));
    DeviceStepEffect(size, worlds(j));
    if worlds(j + 1).m.pc.Publish? {
      return j + 1;
    }
    p := BatchDrains(size, worlds, moves, j + 1);
  }

  /** From the publication point, the used index is published. */
  lemma Publishes(size: nat, worlds: nat -> World, moves: nat -> Move, t: nat) returns (p: nat)
    requires size > 0 && FairRun(size, worlds, moves) && worlds(t).m.pc.Publish?
    ensures t < p && worlds(p).m.pc.Check? && worlds(p).h.published == Consumed(worlds(t).h)
    ensures Exposed(worlds(t).h) <= Exposed(worlds(p).h)
  {
    hide Inv, Next, Rank, DeviceStep, FairRun;
    var j := NextDeviceMove(size, worlds, moves, t);
    DeviceMoveOf(size, worlds, moves, j);
    DeviceStepEffect(size, worlds(j));
    p := j + 1;
  }

  /**
   Every chain made available is eventually consumed and published to the driver, unless the
   thread stops on a rejected chain.
   */
  lemma EveryChainComesBack(size: nat, worlds: nat -> World, moves: nat -> Move, t: nat, n: nat)
    requires size > 0 && FairRun(size, worlds, moves) && n < Exposed(worlds(t).h)
    ensures exists p: nat :: t <= p && (worlds(p).m.pc.Halted? || n < worlds(p).h.published)
  {
    hide Inv, Next, Rank, DeviceStep, FairRun;
    var start := t;
    if worlds(t).m.pc.Publish? {
      start := Publishes(size, worlds, moves, t);
    }
    var p := BatchDrains(size, worlds, moves, start);
    if !worlds(p).m.pc.Halted? {
      var q := Publishes(size, worlds, moves, p);
      assert n < worlds(q).h.published;
    }
  }
}
