/** What the pipeline guarantees over whole runs: ownership, order, accounting, shutdown. */
module PipelineRuns {
  import opened Words
  import opened Pipeline
  import opened PipelineSafety

  // ----- ownership -----

  /**
   At every point of every run each packet taken from the guest is in exactly one place: it has
   left and its buffer was freed once, or it is in the consumer's hand, the ring or the
   producer's hand, in the order taken; and no two live packets share a buffer.
   */
  lemma OneOwnerEach(cap: nat, states: seq<Sys>, moves: seq<Move>, n: nat)
    requires BURST <= cap && Run(cap, states, moves) && n < |states|
    ensures var s := states[n];
      && s.taken == Pkts(s.past) + InHand(s.cons) + s.ring + Unsent(s.prod)
      && multiset(s.freed) + multiset(Live(s)) == multiset(s.taken)
      && DistinctBuffers(Live(s))
      && |s.ring| <= cap
  {
    hide Inv, Run, Pkts, DistinctBuffers, Live;
    RunIsSafe(cap, states, moves, n);
    InvOwners(cap, states[n]);
  }

  lemma InvOwners(cap: nat, s: Sys)
    requires Inv(cap, s)
    ensures s.taken == Pkts(s.past) + InHand(s.cons) + s.ring + Unsent(s.prod)
    ensures multiset(s.freed) + multiset(Live(s)) == multiset(s.taken)
    ensures DistinctBuffers(Live(s)) && |s.ring| <= cap
  {
    hide Pkts, DistinctBuffers, Of, Counted, InHand, Unsent, DeliveredInOrder, ShutdownOk, LossOk, ProducerOk;
    assert Pkts(s.past) + (InHand(s.cons) + s.ring + Unsent(s.prod))
        == Pkts(s.past) + InHand(s.cons) + s.ring + Unsent(s.prod);
    hide Live;
    assert multiset(s.taken) == multiset(Pkts(s.past)) + multiset(Live(s));
  }

  /** The buffers freed by one step. */
  function FreedBy(s: Sys, s': Sys): seq<Pkt> {
    if |s.freed| <= |s'.freed| then s'.freed[|s.freed|..] else []
  }

  ghost predicate Owned(s: Sys, p: Pkt) {
    p in Live(s)
  }

  lemma DistinctSplit(gone: seq<Pkt>, kept: seq<Pkt>, p: Pkt, q: Pkt)
    requires DistinctBuffers(gone + kept) && p in gone && q in kept
    ensures p.buf != q.buf
  {
    var i :| 0 <= i < |gone| && gone[i] == p;
    var j :| 0 <= j < |kept| && kept[j] == q;
    assert (gone + kept)[i] == p && (gone + kept)[|gone| + j] == q;
  }

  /** The only steps that release packets are the end of a burst and a drain dequeue. */
  lemma WhatStepsRelease(cap: nat, s: Sys, move: Move, s': Sys)
    requires Next(cap, s, move, s')
    ensures if move.ConsMove? && s.cons.CSend? && !Trying(s.cons) then s' == Finish(s)
            else if move.ConsMove? && s.cons.CDrain? && 0 < move.count <= |s.ring| then
              s' == s.(ring := s.ring[move.count..], freed := s.freed + s.ring[..move.count],
                       past := s.past + Mark(s.ring[..move.count], Drained))
            else s'.past == s.past && s'.freed == s.freed
  {
    hide Finish;
  }

  lemma GoneAreOwned(s: Sys, s': Sys, gone: seq<Pkt>, p: Pkt)
    requires DistinctBuffers(Live(s)) && Live(s) == gone + Live(s') && p in gone
    ensures Owned(s, p)
    ensures forall q | Owned(s', q) :: q.buf != p.buf
  {
    hide Live;
    forall q | Owned(s', q)
      ensures q.buf != p.buf
    {
      DistinctSplit(gone, Live(s'), p, q);
    }
  }

  lemma FinishLeaves(s: Sys)
    requires s.cons.CSend? && s.cons.accepted <= |s.cons.burst|
    ensures Live(s) == s.cons.burst + Live(Finish(s))
    ensures forall p | p in FreedBy(s, Finish(s)) :: p in s.cons.burst
  {
    hide SumLen, Mark;
    var c := s.cons;
    assert FreedBy(s, Finish(s)) == c.burst[c.accepted..] + c.burst[..c.accepted];
  }

  /** A step frees only buffers the pipeline owns, and owns none of them afterwards. */
  lemma FreesOnlyWhatItOwns(cap: nat, s: Sys, move: Move, s': Sys, p: Pkt)
    requires Inv(cap, s) && Next(cap, s, move, s') && p in FreedBy(s, s')
    ensures Owned(s, p)
    ensures forall q | Owned(s', q) :: q.buf != p.buf
  {
    hide Of, Pkts, Counted, Balanced, FreedOnce, DistinctBuffers, Next, Finish, Live, Owned;
    WhatStepsRelease(cap, s, move, s');
    if s.cons.CSend? {
      FinishLeaves(s);
      GoneAreOwned(s, s', s.cons.burst, p);
    } else {
      DrainLeaves(s, s', move.count);
      assert FreedBy(s, s') == s.ring[..move.count];
      GoneAreOwned(s, s', s.ring[..move.count], p);
    }
  }

  // ----- order and loss -----

  /** a can be obtained from b by leaving elements out. */
  predicate Subsequence(a: seq<Pkt>, b: seq<Pkt>) {
    if a == [] then true
    else if b == [] then false
    else
      (a[|a| - 1] == b[|b| - 1] && Subsequence(a[..|a| - 1], b[..|b| - 1])) || Subsequence(a, b[..|b| - 1])
  }

  lemma {:induction false} SubsequenceAppend(a: seq<Pkt>, b: seq<Pkt>, c: seq<Pkt>, take: nat)
    requires Subsequence(a, b) && take <= |c|
    ensures Subsequence(a + c[..take], b + c)
    decreases |c|
  {
    if c == [] {
      assert a + c[..take] == a && b + c == b;
    } else {
      var init, last := c[..|c| - 1], c[|c| - 1];
      assert (b + c)[..|b + c| - 1] == b + init;
      if take == |c| {
        SubsequenceAppend(a, b, init, take - 1);
        var x := a + c[..take];
        assert x[..|x| - 1] == a + init[..take - 1];
      } else {
        SubsequenceAppend(a, b, init, take);
        assert c[..take] == init[..take];
      }
    }
  }

  lemma {:induction false} FateIsSubsequence(past: seq<Exit>, fate: Fate)
    ensures Subsequence(Of(past, fate), Pkts(past))
  {
    if past != [] {
      var init, last := past[..|past| - 1], past[|past| - 1];
      FateIsSubsequence(init, fate);
      assert Pkts(past)[..|past| - 1] == Pkts(init);
      var a := Of(past, fate);
      if last.fate == fate {
        assert a[..|a| - 1] == Of(init, fate);
      } else {
        assert a == Of(init, fate);
      }
    }
  }

  /** What the guest receives is always a subsequence, in order, of what was taken from it. */
  lemma DeliveryKeepsOrder(cap: nat, states: seq<Sys>, moves: seq<Move>, n: nat)
    requires BURST <= cap && Run(cap, states, moves) && n < |states|
    ensures Subsequence(states[n].delivered, states[n].taken)
  {
    RunIsSafe(cap, states, moves, n);
    var s := states[n];
    hide Run, Of, Pkts, Subsequence, DistinctBuffers;
    var rest := Live(s);
    var take := |Accepted(s.cons)|;
    assert Accepted(s.cons) == rest[..take];
    FateIsSubsequence(s.past, Delivered);
    SubsequenceAppend(Of(s.past, Delivered), Pkts(s.past), rest, take);
  }

  lemma OfInit(past: seq<Exit>, fate: Fate)
    requires past != [] && Of(past, fate) == []
    ensures Of(past[..|past| - 1], fate) == [] && past[|past| - 1].fate != fate
  {
  }

  lemma {:induction false} AllOneFate(past: seq<Exit>)
    requires Of(past, Dropped) == [] && Of(past, Drained) == []
    ensures Of(past, Delivered) == Pkts(past)
  {
    if past != [] {
      OfInit(past, Dropped);
      OfInit(past, Drained);
      AllOneFate(past[..|past| - 1]);
      assert Pkts(past) == Pkts(past[..|past| - 1]) + [past[|past| - 1].pkt];
    }
  }

  /** The step that ends a burst with all attempts used up and packets refused. */
  predicate GivesUp(s: Sys, move: Move) {
    && move.ConsMove? && s.cons.CSend?
    && s.cons.accepted < |s.cons.burst| && s.cons.retries == 1000
  }

  /** Packets are dropped exactly by such a step. */
  lemma DropsOnlyAfterAllRetries(cap: nat, s: Sys, move: Move, s': Sys)
    requires Inv(cap, s) && Next(cap, s, move, s')
    ensures Of(s'.past, Dropped) != Of(s.past, Dropped) <==> GivesUp(s, move)
    ensures Of(s.past, Dropped) <= Of(s'.past, Dropped)
  {
    hide Of, Pkts, Counted, Balanced, FreedOnce, DistinctBuffers, Live, Next, Mark, SumLen;
    WhatStepsRelease(cap, s, move, s');
    if move.ConsMove? && s.cons.CSend? && !Trying(s.cons) {
      var c := s.cons;
      var gone := Mark(c.burst[..c.accepted], Delivered) + Mark(c.burst[c.accepted..], Dropped);
      assert s'.past == s.past + gone;
      FinishExits(c);
      OfConcat(s.past, gone, Dropped);
    } else if move.ConsMove? && s.cons.CDrain? && 0 < move.count <= |s.ring| {
      OfConcat(s.past, Mark(s.ring[..move.count], Drained), Dropped);
      OfMark(s.ring[..move.count], Drained, Dropped);
    }
  }

  /** Over a run: something was dropped exactly when some burst gave up. */
  lemma {:induction false} DroppedIffGaveUp(cap: nat, states: seq<Sys>, moves: seq<Move>, n: nat)
    requires BURST <= cap && Run(cap, states, moves) && n < |states|
    ensures Of(states[n].past, Dropped) != [] <==> exists j :: 0 <= j < n && GivesUp(states[j], moves[j])
  {
    if n > 0 {
      hide Inv, Next, Of, GivesUp;
      var k := n - 1;
      DroppedIffGaveUp(cap, states, moves, k);
      RunIsSafe(cap, states, moves, k);
      assert Next(cap, states[k], moves[k], states[k + 1]);
      DropsOnlyAfterAllRetries(cap, states[k], moves[k], states[k + 1]);
    }
  }

  lemma NoLossIsPrefix(cap: nat, s: Sys)
    requires Inv(cap, s) && Of(s.past, Dropped) == [] && !s.cons.CDrain? && !s.cons.CDone?
    ensures s.delivered <= s.taken
  {
    hide Of, Pkts, DistinctBuffers, FreedOnce, Counted, ProducerOk, ShutdownOk, Unsent;
    AllOneFate(s.past);
    var rest := Live(s);
    assert Accepted(s.cons) == rest[..|Accepted(s.cons)|];
    hide Live, Accepted;
    assert s.delivered == s.taken[..|s.delivered|];
  }

  /** Before the drain, and while no burst has given up, delivery is an exact prefix. */
  lemma LosslessUntilDropOrDrain(cap: nat, states: seq<Sys>, moves: seq<Move>, n: nat)
    requires BURST <= cap && Run(cap, states, moves) && n < |states|
    requires forall j | 0 <= j < n :: !GivesUp(states[j], moves[j])
    requires !states[n].cons.CDrain? && !states[n].cons.CDone?
    ensures states[n].delivered <= states[n].taken
  {
    hide Inv, Next, Of, GivesUp;
    DroppedIffGaveUp(cap, states, moves, n);
    RunIsSafe(cap, states, moves, n);
    NoLossIsPrefix(cap, states[n]);
  }

  // ----- accounting -----

  lemma {:induction false} FatesPartition(past: seq<Exit>)
    ensures |past| == |Of(past, Delivered)| + |Of(past, Dropped)| + |Of(past, Drained)|
  {
    if past != [] {
      FatesPartition(past[..|past| - 1]);
    }
  }

  lemma SumIsFirst(a: nat, b: nat)
    ensures (a + b) % W64 == a % W64 <==> b % W64 == 0
  {
  }

  predicate BothDone(s: Sys) {
    s.prod.PDone? && s.cons.CDone?
  }

  /**
   After both threads have exited: packets received are delivered, dropped, drained or left in
   the ring; packets sent are those delivered; the byte counter counts the dropped packets too,
   so it shows the delivered bytes exactly when the dropped ones total zero.
   */
  lemma FinalAccounts(cap: nat, states: seq<Sys>, moves: seq<Move>, n: nat)
    requires BURST <= cap && Run(cap, states, moves) && n < |states| && BothDone(states[n])
    ensures var s := states[n];
      var sent, dropped, drained := s.delivered, Of(s.past, Dropped), Of(s.past, Drained);
      && |s.taken| == |sent| + |dropped| + |drained| + |s.ring|
      && s.rxPkts == |s.taken| % W64
      && s.txPkts == |sent| % W64
      && s.txBytes == (SumLen(sent) + SumLen(dropped)) % W64
      && (s.txBytes == SumLen(sent) % W64 <==> SumLen(dropped) % W64 == 0)
      && |s.ring| <= BURST
  {
    RunIsSafe(cap, states, moves, n);
    var s := states[n];
    FatesPartition(s.past);
    hide Run, Of, Pkts, SumLen;
    assert s.delivered == Of(s.past, Delivered);
    SumIsFirst(SumLen(s.delivered), SumLen(Of(s.past, Dropped)));
  }

  // ----- what the final drain leaves behind -----

  lemma {:induction false} AfterConsumerExit(cap: nat, states: seq<Sys>, moves: seq<Move>, d: nat, n: nat)
    requires BURST <= cap && Run(cap, states, moves) && d <= n < |states| && states[d].cons.CDone?
    ensures states[n].cons.CDone? && states[n].past == states[d].past && states[d].taken <= states[n].taken
    decreases n
  {
    if d < n {
      var j := n - 1;
      AfterConsumerExit(cap, states, moves, d, j);
      assert Next(cap, states[j], moves[j], states[j + 1]);
    }
  }

  lemma ConsumerExits(cap: nat, s: Sys, move: Move, s': Sys)
    requires Inv(cap, s) && Next(cap, s, move, s') && s.cons.CDrain? && s'.cons.CDone?
    ensures s.ring == [] && s'.past == s.past && s'.taken == s.taken
    ensures s.taken == Pkts(s.past) + Unsent(s.prod)
  {
    hide DistinctBuffers, Pkts, Of, Counted, FreedOnce;
    assert [] + [] + Unsent(s.prod) == Unsent(s.prod);
  }

  lemma DoneBalance(cap: nat, s: Sys)
    requires Inv(cap, s) && BothDone(s)
    ensures s.taken == Pkts(s.past) + s.ring
  {
    hide DistinctBuffers, Pkts, Of, Counted, FreedOnce;
    assert [] + s.ring + [] == s.ring;
  }

  lemma SplitLate(base: seq<Pkt>, early: seq<Pkt>, all: seq<Pkt>, ring: seq<Pkt>)
    requires base + early <= all && all == base + ring
    ensures ring == early + all[|base + early|..]
  {
    assert all == (base + early) + all[|base + early|..];
    assert ring == all[|base|..];
  }

  /**
   The ring left behind holds exactly what the producer still had in hand when the consumer made
   its last, empty, dequeue, and what it took from the guest after that.
   */
  lemma ResidueIsLateProduction(cap: nat, states: seq<Sys>, moves: seq<Move>, d: nat, n: nat)
    requires BURST <= cap && Run(cap, states, moves) && d < n < |states|
    requires states[d].cons.CDrain? && states[d + 1].cons.CDone? && BothDone(states[n])
    ensures states[d].taken <= states[n].taken
    ensures states[n].ring == Unsent(states[d].prod) + states[n].taken[|states[d].taken|..]
  {
    hide Inv, Next, Pkts, Unsent;
    RunIsSafe(cap, states, moves, d);
    RunIsSafe(cap, states, moves, n);
    AfterConsumerExit(cap, states, moves, d + 1, n);
    ConsumerExits(cap, states[d], moves[d], states[d + 1]);
    DoneBalance(cap, states[n]);
    SplitLate(Pkts(states[d].past), Unsent(states[d].prod), states[n].taken, states[n].ring);
  }
}
