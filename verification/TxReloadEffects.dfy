/** What the dequeue thread does after a reload: exact replay, or what happens instead. */
module TxReloadEffects {
  import opened Words
  import opened Chains
  import opened TxRing
  import opened TxRingSafety
  import opened TxReload
  import TxRingRuns

  // ----- what happens otherwise -----

  /** The thread has picked the slot of its entry. */
  predicate Slotted(pc: Pc) {
    pc.Walking? || pc.StoreId? || pc.StoreLen? || pc.BumpAvail? || pc.BumpUsed?
  }

  /** The thread's entry does not count as consumed yet. */
  predicate Unfinished(pc: Pc) {
    (Slotted(pc) && !pc.BumpUsed?) || pc.Halted?
  }

  /** With something unpublished, the entry in hand is not the one to replay first. */
  lemma InHandIsAnother(size: nat, w: World)
    requires Inv(size, w) && InHand(w.m.pc) && !w.m.pc.BumpUsed? && w.h.published < Consumed(w.h)
    ensures Consumed(w.h) < |w.h.sent|
    ensures w.m.pc.head == Head(w.h.sent[Consumed(w.h)]) != Head(w.h.sent[w.h.published])
  {
    OutstandingHeadsDiffer(size, w, w.h.published, Consumed(w.h));
    hide Intact, HeldIsOutstanding, AvailSlots, UsedSlots, HarvestedInOrder, ReceivedInOrder, LogBalances, OnChain;
  }

  /** The reload with nothing between its stores. */
  function Reload(w: World): World {
    StoreAvail(StoreUsed(w))
  }

  /** A reload before the slot is picked: the entry in hand gets the slot of the first unpublished one. */
  lemma ReloadBeforeSlot(size: nat, w: World)
    requires Inv(size, w) && w.m.pc.PickSlot? && w.h.published < Consumed(w.h)
    ensures var m := DeviceStep(size, Reload(w)).m;
      && m.pc.Walking? && m.pc.u == Slot(size, w.h.published)
      && m.pc.head == w.m.pc.head != Head(w.h.sent[w.h.published])
  {
    InHandIsAnother(size, w);
    hide Intact, HeldIsOutstanding, AvailSlots, UsedSlots, HarvestedInOrder, ReceivedInOrder, LogBalances, OnChain;
    SlotOfWrapped(size, w.h.published);
  }

  /** A reload between the increments: the used index ends one ahead of the available one. */
  lemma ReloadBetweenIncrements(size: nat, w: World)
    requires Inv(size, w) && w.m.pc.BumpUsed?
    ensures var m := DeviceStep(size, Reload(w)).m;
      m.pc.Check? && m.lastAvail == Wrap16(w.h.published) && m.lastUsed == Wrap16(w.h.published + 1)
  {
    hide Inv;
    InvCounters(size, w);
    WrapSuccessor(w.h.published);
  }

  /** The world r reached after a reload at w, had the reload not been made. */
  function Undone(w: World, r: World): World
    requires w.h.published <= |r.h.received|
  {
    var all := w.h.received + r.h.received[w.h.published..];
    World(r.m.(lastAvail := Wrap16(|all|), lastUsed := Wrap16(|all| - Behind(r.m.pc))),
          r.h.(received := all, replayed := w.h.replayed))
  }

  /** After a reload at w the thread is still on the entry it had in hand, or has just finished it. */
  ghost predicate StillOn(size: nat, w: World, r: World) {
    && w.h.published <= |r.h.received| <= w.h.published + 1
    && Inv(size, Undone(w, r))
    && (Slotted(r.m.pc) || r.m.pc.Check? || r.m.pc.Halted?)
    && (|r.h.received| == w.h.published <==> Unfinished(r.m.pc))
    && r.m.lastAvail == Wrap16(|r.h.received|)
    && r.m.lastUsed == Wrap16(|r.h.received| - Behind(r.m.pc))
    && r.h.published == w.h.published
    && r.h.log == w.h.log + r.h.received[w.h.published..]
  }

  lemma ReloadStartsStillOn(size: nat, w: World)
    requires Inv(size, w) && Slotted(w.m.pc) && !w.m.pc.BumpUsed?
    ensures StillOn(size, w, Reload(w))
  {
    hide Inv;
    InvCounters(size, w);
    var r := Reload(w);
    assert r.h.received[w.h.published..] == [];
    assert w.h.received + [] == w.h.received && w.h.log + [] == w.h.log;
    assert Undone(w, r) == w;
  }

  lemma UndoneStep(size: nat, w: World, r: World)
    requires size > 0 && Slotted(r.m.pc) && w.h.published <= |r.h.received|
    requires r.m.pc.BumpUsed? ==> w.h.published < |r.h.received|
    ensures var r' := DeviceStep(size, r);
      && w.h.published <= |r'.h.received|
      && Undone(w, r') == DeviceStep(size, Undone(w, r))
  {
    hide WalkStep;
    var c := |w.h.received + r.h.received[w.h.published..]|;
    WrapSuccessor(c);
    if r.m.pc.BumpUsed? {
      WrapSuccessor(c - 1);
    } else if r.m.pc.BumpAvail? {
      var f := r.m.pc.frame;
      assert (r.h.received + [f])[w.h.published..] == r.h.received[w.h.published..] + [f];
      assert w.h.received + (r.h.received[w.h.published..] + [f]) == w.h.received + r.h.received[w.h.published..] + [f];
    }
  }

  lemma StillOnCounts(size: nat, w: World, r: World)
    requires StillOn(size, w, r) && Slotted(r.m.pc) && size > 0
    ensures var r' := DeviceStep(size, r);
      && w.h.published <= |r'.h.received| <= w.h.published + 1
      && (Slotted(r'.m.pc) || r'.m.pc.Check? || r'.m.pc.Halted?)
      && (|r'.h.received| == w.h.published <==> Unfinished(r'.m.pc))
      && r'.m.lastAvail == Wrap16(|r'.h.received|)
      && r'.m.lastUsed == Wrap16(|r'.h.received| - Behind(r'.m.pc))
      && r'.h.published == w.h.published
      && r'.h.log == w.h.log + r'.h.received[w.h.published..]
  {
    hide Inv, WalkStep;
    WrapSuccessor(w.h.published);
    if r.m.pc.BumpAvail? {
      var f := r.m.pc.frame;
      assert (r.h.received + [f])[w.h.published..] == r.h.received[w.h.published..] + [f];
    }
  }

  lemma StillOnDevice(size: nat, w: World, r: World)
    requires StillOn(size, w, r) && Slotted(r.m.pc)
    ensures size > 0 && StillOn(size, w, DeviceStep(size, r))
  {
    hide Inv, DeviceStep;
    InvCounters(size, Undone(w, r));
    StillOnCounts(size, w, r);
    UndoneStep(size, w, r);
    DeviceKeepsInv(size, Undone(w, r));
  }

  lemma StillOnDriver(size: nat, w: World, r: World, move: Move, r': World)
    requires size > 0 && StillOn(size, w, r) && DriverMove(move) && Next(size, r, move, r')
    ensures StillOn(size, w, r')
  {
    hide Inv, Next, Wrap16;
    DriverLeavesThread(size, r, move, r');
    var v := Undone(w, r);
    RebasedDriver(size, r, move, r', v.m.lastAvail, v.m.lastUsed, v.h.received, v.h.replayed);
    assert v == Rebased(r, v.m.lastAvail, v.m.lastUsed, v.h.received, v.h.replayed);
    assert Undone(w, r') == Rebased(r', v.m.lastAvail, v.m.lastUsed, v.h.received, v.h.replayed);
    NextKeepsInv(size, v, move, Undone(w, r'));
  }

  /** Moves of thread and driver, from r on, until the thread has finished the entry it is on. */
  ghost predicate FinishesEntry(size: nat, r: World, worlds: seq<World>, moves: seq<Move>)
    requires size > 0
  {
    && |worlds| == |moves| + 1 && worlds[0] == r
    && (forall k | 0 <= k < |moves| ::
          && (DriverMove(moves[k]) || moves[k].DeviceMove?)
          && Slotted(worlds[k].m.pc) && Next(size, worlds[k], moves[k], worlds[k + 1]))
    && worlds[|moves|].m.pc.Check?
  }

  lemma {:induction false} StillOnAlong(size: nat, w: World, worlds: seq<World>, moves: seq<Move>, k: nat)
    requires size > 0 && FinishesEntry(size, Reload(w), worlds, moves) && k <= |moves|
    requires Inv(size, w) && Slotted(w.m.pc) && !w.m.pc.BumpUsed?
    ensures StillOn(size, w, worlds[k]) && w.h.sent <= worlds[k].h.sent
  {
    hide Inv, StillOn;
    if k == 0 {
      ReloadStartsStillOn(size, w);
    } else {
      var j := k - 1;
      StillOnAlong(size, w, worlds, moves, j);
      assert Next(size, worlds[j], moves[j], worlds[j + 1]) && Slotted(worlds[j].m.pc);
      if moves[j].DeviceMove? {
        TxRingRuns.DeviceMoveIsStep(size, worlds[j], worlds[j + 1]);
        StillOnDevice(size, w, worlds[j]);
        StepKeepsSent(size, worlds[j]);
      } else {
        StillOnDriver(size, w, worlds[j], moves[j], worlds[j + 1]);
        DriverLeavesThread(size, worlds[j], moves[j], worlds[j + 1]);
      }
    }
  }

  lemma StepKeepsSent(size: nat, w: World)
    requires size > 0
    ensures DeviceStep(size, w).h.sent == w.h.sent
  {
    hide WalkStep;
  }

  /** The record of r when only the first keep entries count as consumed. */
  function Keep(w: World, keep: nat): World
    requires keep <= |w.h.received|
  {
    Rebased(w, Wrap16(keep), Wrap16(keep), w.h.received[..keep], w.h.replayed + w.h.received[keep..])
  }

  lemma KeepKeepsInv(size: nat, w: World, keep: nat)
    requires Inv(size, w) && w.m.pc.Check? && w.h.published <= keep <= Consumed(w.h)
    ensures Inv(size, Keep(w, keep))
  {
    hide Intact, HeldIsOutstanding, AvailSlots, HarvestedInOrder, ReceivedInOrder, LogBalances;
    LogTakesBack(w.h.log, w.h.received, w.h.replayed, keep);
    ReceivedPrefix(w.h.sent, w.h.received, keep);
  }

  /**
   A reload while the thread is on an entry whose slot is picked, with something unpublished. For
   every continuation, when that entry is finished both indices stand one past the first
   unpublished entry, which is therefore not replayed, and the entry that was received is another
   one, which still lies ahead and will be received again. The ids stay in order: the queue is the
   one in which just one entry more than the published ones is consumed.
   */
  lemma ReloadInsideEntrySkips(size: nat, w: World, worlds: seq<World>, moves: seq<Move>)
    requires size > 0 && FinishesEntry(size, Reload(w), worlds, moves)
    requires Inv(size, w) && Slotted(w.m.pc) && !w.m.pc.BumpUsed? && w.h.published < Consumed(w.h)
    ensures var r, p, c := worlds[|moves|], w.h.published, Consumed(w.h);
      && r.m.lastAvail == r.m.lastUsed == Wrap16(p + 1) && r.m.usedIdx == Wrap16(p)
      && c < |r.h.sent| && r.h.sent[c].outcome.Frame? && r.h.log == w.h.log + [r.h.sent[c].outcome.bytes]
      && p <= |r.h.received|
      && Inv(size, Keep(Undone(w, r), p + 1)) && Keep(Undone(w, r), p + 1).m == r.m
  {
    hide Inv;
    var r, p, c := worlds[|moves|], w.h.published, Consumed(w.h);
    StillOnAlong(size, w, worlds, moves, |moves|);
    var v := Undone(w, r);
    KeepKeepsInv(size, v, p + 1);
    InvFrames(size, v);
    assert r.h.received[p..] == [r.h.received[p]];
    assert v.h.received[c] == r.h.received[p];
  }

  lemma InvFrames(size: nat, w: World)
    requires Inv(size, w)
    ensures ReceivedInOrder(w.h.sent, w.h.received) && w.m.usedIdx == Wrap16(w.h.published)
  {
    hide Intact, HeldIsOutstanding, AvailSlots, UsedSlots, HarvestedInOrder, ReceivedInOrder, LogBalances, AtPc;
  }

  /**
   After a harmless reload: for every continuation without another reload, the next entry the
   thread finishes is the first unpublished one, recorded in its own slot.
   */
  lemma NextFinishedIsFirstUnpublished(size: nat, worlds: seq<World>, moves: seq<Move>)
    requires |worlds| == |moves| + 1 && Inv(size, worlds[0]) && Consumed(worlds[0].h) == worlds[0].h.published
    requires size > 0 && forall k | 0 <= k < |moves| ::
               (DriverMove(moves[k]) || moves[k].DeviceMove?) && Next(size, worlds[k], moves[k], worlds[k + 1])
    requires var r := worlds[|moves|]; r.m.pc.Check? && Consumed(r.h) == worlds[0].h.published + 1
    ensures var w, r, p := worlds[0], worlds[|moves|], worlds[0].h.published;
      && r.m.lastAvail == r.m.lastUsed == Wrap16(p + 1)
      && p < |r.h.sent| && r.h.sent[p].outcome.Frame? && r.h.log == w.h.log + [r.h.sent[p].outcome.bytes]
      && (Reclaimed(r.h) <= p ==> |r.m.usedRing| == size
                                  && r.m.usedRing[Slot(size, p)] == UsedElem(Head(r.h.sent[p]), 1))
  {
    hide Inv;
    var w, r, p := worlds[0], worlds[|moves|], worlds[0].h.published;
    LogFollows(size, worlds, moves, |moves|);
    InvCounters(size, r);
    InvFrames(size, r);
    assert r.h.received[p..] == [r.h.received[p]];
    if Reclaimed(r.h) <= p {
      RecordedAt(size, r, p);
    }
  }

  lemma RecordedAt(size: nat, w: World, n: nat)
    requires Inv(size, w) && Reclaimed(w.h) <= n < Consumed(w.h)
    ensures |w.m.usedRing| == size && n < |w.h.sent|
    ensures w.m.usedRing[Slot(size, n)] == UsedElem(Head(w.h.sent[n]), 1)
  {
    hide Intact, HeldIsOutstanding, AvailSlots, HarvestedInOrder, ReceivedInOrder, LogBalances, AtPc;
  }

  lemma {:induction false} LogFollows(size: nat, worlds: seq<World>, moves: seq<Move>, k: nat)
    requires |worlds| == |moves| + 1 && Inv(size, worlds[0]) && k <= |moves|
    requires size > 0 && forall j | 0 <= j < |moves| ::
               (DriverMove(moves[j]) || moves[j].DeviceMove?) && Next(size, worlds[j], moves[j], worlds[j + 1])
    ensures Inv(size, worlds[k])
    ensures var h, h' := worlds[0].h, worlds[k].h;
      h.received <= h'.received && h'.log == h.log + h'.received[|h.received|..]
  {
    hide Inv, Next;
    if k > 0 {
      var j := k - 1;
      LogFollows(size, worlds, moves, j);
      NextKeepsInv(size, worlds[j], moves[j], worlds[j + 1]);
      if moves[j].DeviceMove? {
        TxRingRuns.DeviceMoveIsStep(size, worlds[j], worlds[j + 1]);
        StepLogs(size, worlds[0].h, worlds[j]);
      } else {
        DriverLeavesThread(size, worlds[j], moves[j], worlds[j + 1]);
      }
    }
  }

  lemma StepLogs(size: nat, h: History, w: World)
    requires size > 0 && h.received <= w.h.received && w.h.log == h.log + w.h.received[|h.received|..]
    ensures var h' := DeviceStep(size, w).h;
      h.received <= h'.received && h'.log == h.log + h'.received[|h.received|..]
  {
    hide WalkStep;
    if w.m.pc.BumpAvail? {
      var f := w.m.pc.frame;
      assert (w.h.received + [f])[|h.received|..] == w.h.received[|h.received|..] + [f];
    }
  }
}
