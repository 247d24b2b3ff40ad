/** A third enabling message starts a second dequeue thread: both serve the same entry. */
module TxTwoThreads {
  import opened Chains
  import opened TxRing
  import opened TxReloadRun

  /** The world as one thread sees it, and where the other thread stands. */
  datatype Pair = Pair(w: World, other: Pc)

  function FirstSteps(p: Pair): Pair {
    Pair(DeviceStep(2, p.w), p.other)
  }

  function SecondSteps(p: Pair): Pair {
    var w := DeviceStep(2, World(p.w.m.(pc := p.other), p.w.h));
    Pair(World(w.m.(pc := p.w.m.pc), w.h), w.m.pc)
  }

  ghost predicate PairRun(ps: seq<Pair>) {
    && ps != []
    && forall k | 0 <= k < |ps| - 1 :: ps[k + 1] == FirstSteps(ps[k]) || ps[k + 1] == SecondSteps(ps[k])
  }

  /** The run, one step longer. */
  lemma Extend(ps: seq<Pair>, p: Pair)
    requires PairRun(ps) && (p == FirstSteps(ps[|ps| - 1]) || p == SecondSteps(ps[|ps| - 1]))
    ensures PairRun(ps + [p])
  {
  }

  function At(pc: Pc, other: Pc, used: seq<UsedElem>, a: nat, u: nat, h: History): Pair {
    Pair(World(Ring(1, pc, used, 0, a, u), h), other)
  }

  /** Both threads take each of their steps in turn, up to the increments. */
  lemma BothServe(h: History) returns (ps: seq<Pair>)
    requires h.pos == 0
    ensures PairRun(ps) && ps[0] == At(Check, Check, BLANK, 0, 0, h)
    ensures ps[|ps| - 1] == At(BumpAvail(0, [7]), BumpAvail(0, [7]), BLANK[0 := UsedElem(0, 1)], 0, 0, h)
  {
    ByteArrives(0);
    hide WalkStep, Held;
    var done := BLANK[0 := UsedElem(0, 1)];
    var pcs := [Check, Fetch, PickSlot(0), Walking(0, 0, 0, []), StoreId(0, 0, [7]), StoreLen(0, 0, [7]),
                BumpAvail(0, [7])];
    ps := [At(Check, Check, BLANK, 0, 0, h)];
    for i := 0 to 6
      invariant PairRun(ps) && ps[0] == At(Check, Check, BLANK, 0, 0, h)
      invariant ps[|ps| - 1] == At(pcs[i], pcs[i], if i < 6 then BLANK else done, 0, 0, h)
    {
      var used := if i < 5 then BLANK else done;
      assert BLANK[0 := UsedElem(0, 0)] == BLANK && done[0 := UsedElem(0, 1)] == done;
      var p, q := At(pcs[i + 1], pcs[i], used, 0, 0, h), At(pcs[i + 1], pcs[i + 1], used, 0, 0, h);
      assert p == FirstSteps(ps[|ps| - 1]);
      Extend(ps, p);
      ps := ps + [p];
      assert q == SecondSteps(p);
      Extend(ps, q);
      ps := ps + [q];
    }
  }

  /**
   The driver made one chain available. Both threads receive its frame, and the available index ends
   one past the driver's, so that neither finds the queue empty again.
   */
  lemma TwoThreadsServeTwice() returns (ps: seq<Pair>)
    ensures PairRun(ps) && ps[0].w.m.pc == ps[0].other == Check
    ensures var w := ps[|ps| - 1].w;
      |w.h.sent| == 1 && w.h.log == [[7], [7]] && w.m.availIdx == 1 && w.m.lastAvail == w.m.lastUsed == 2
  {
    var h := History(Sent(1), [], 0, [], 0, [], []);
    ps := BothServe(h);
    var done := BLANK[0 := UsedElem(0, 1)];
    hide Held;
    var p1 := At(BumpUsed, BumpAvail(0, [7]), done, 1, 0, Received(h));
    Extend(ps, p1);
    ps := ps + [p1];
    var p2 := At(BumpUsed, BumpUsed, done, 2, 0, Received(Received(h)));
    Extend(ps, p2);
    ps := ps + [p2];
    var p3 := At(Check, BumpUsed, done, 2, 1, Received(Received(h)));
    Extend(ps, p3);
    ps := ps + [p3];
    var p4 := At(Check, Check, done, 2, 2, Received(Received(h)));
    Extend(ps, p4);
    ps := ps + [p4];
    assert [] + [[7]] + [[7]] == [[7], [7]];
  }
}
