/** Once quit is set, both threads finish, whatever the interleaving. */
module PipelineShutdown {
  import opened Words
  import opened Pipeline
  import opened PipelineSafety
  import opened PipelineRuns

  function ProdRank(p: Producer): nat {
    match p
    case PDone => 0
    case PTop => 1
    case PPush(_, _) => 2 + 2 * |Unsent(p)|
    case PFetch => 3 + 2 * BURST
    case PChecked => 4 + 2 * BURST
  }

  function ConsRank(c: Consumer): nat {
    match c
    case CDone => 0
    case CDrain => 1
    case CTop => 2
    case CSend(burst, accepted, retries) =>
      3 + (if retries <= MAX_RETRIES then 2 * (MAX_RETRIES - retries) else 0) + (if accepted < |burst| then 1 else 0)
    case CFetch => 5 + 2 * MAX_RETRIES
    case CChecked => 6 + 2 * MAX_RETRIES
  }

  /** Work left until both threads have exited; a pushed packet moves from weight 2 to weight 1. */
  function Rank(s: Sys): nat {
    ProdRank(s.prod) + |s.ring| + ConsRank(s.cons)
  }

  /** The producer finds the ring full. */
  predicate Spins(cap: nat, s: Sys) {
    s.prod.PPush? && |s.ring| >= cap
  }

  lemma ProdLowersRank(cap: nat, s: Sys, burst: seq<Pkt>, k: nat)
    requires Inv(cap, s) && s.quit && ProdLegal(cap, s, burst, k)
    ensures var s' := ProdStep(s, burst, k);
      && s'.quit
      && (if s.prod.PDone? || Spins(cap, s) then s' == s else Rank(s') < Rank(s))
  {
    hide DistinctBuffers, Of, Pkts, Counted, Balanced, FreedOnce, DeliveredInOrder;
  }

  lemma ConsLowersRank(cap: nat, s: Sys, k: nat)
    requires Inv(cap, s) && s.quit && ConsLegal(s, k)
    ensures var s' := ConsStep(s, k);
      && s'.quit
      && (if s.cons.CDone? then s' == s else Rank(s') < Rank(s))
  {
    hide DistinctBuffers, Of, Pkts, Counted, Balanced, FreedOnce, DeliveredInOrder, SumLen, Mark;
  }

  lemma NextKeepsRank(cap: nat, s: Sys, move: Move, s': Sys)
    requires Inv(cap, s) && s.quit && Next(cap, s, move, s')
    ensures s'.quit && Rank(s') <= Rank(s)
    ensures Rank(s') == Rank(s) ==> s'.prod == s.prod && s'.cons == s.cons && s'.ring == s.ring
    ensures move.ConsMove? && !s.cons.CDone? ==> Rank(s') < Rank(s)
    ensures move.ProdMove? && !s.prod.PDone? && !Spins(cap, s) ==> Rank(s') < Rank(s)
  {
    hide Inv, Rank, ProdStep, ConsStep;
    match move
    case ProdMove(burst, k) => ProdLowersRank(cap, s, burst, k);
    case ConsMove(k) => ConsLowersRank(cap, s, k);
    case _ => SameThreads(s, s');
  }

  lemma SameThreads(s: Sys, s': Sys)
    requires s'.prod == s.prod && s'.cons == s.cons && s'.ring == s.ring
    ensures Rank(s') == Rank(s)
  {
  }

  /** After the consumer's exit the ring always has room for what the producer still holds. */
  lemma NoSpinAfterConsumerExit(cap: nat, s: Sys)
    requires Inv(cap, s) && s.cons.CDone?
    ensures !Spins(cap, s)
  {
    hide DistinctBuffers, Of, Pkts, Counted, Balanced, FreedOnce, DeliveredInOrder;
  }

  // ----- runs that go on for ever -----

  ghost predicate ProducerScheduledAfter(moves: nat -> Move, n: nat) {
    exists j: nat :: n <= j && moves(j).ProdMove?
  }

  ghost predicate ConsumerScheduledAfter(moves: nat -> Move, n: nat) {
    exists j: nat :: n <= j && moves(j).ConsMove?
  }

  /** A run in which each thread is scheduled again and again; an exited thread does nothing. */
  ghost predicate FairRun(cap: nat, states: nat -> Sys, moves: nat -> Move) {
    && Inv(cap, states(0))
    && (forall n: nat :: Next(cap, states(n), moves(n), states(n + 1)))
    && (forall n: nat :: ProducerScheduledAfter(moves, n))
    && (forall n: nat :: ConsumerScheduledAfter(moves, n))
  }

  lemma {:induction false} FairRunIsSafe(cap: nat, states: nat -> Sys, moves: nat -> Move, n: nat)
    requires FairRun(cap, states, moves)
    ensures Inv(cap, states(n))
  {
    hide Inv, Next;
    if n > 0 {
      FairRunIsSafe(cap, states, moves, n - 1);
      NextKeepsInv(cap, states(n - 1), moves(n - 1), states(n - 1 + 1));
    }
  }

  lemma StepAt(cap: nat, states: nat -> Sys, moves: nat -> Move, n: nat)
    requires FairRun(cap, states, moves)
    ensures Inv(cap, states(n)) && Next(cap, states(n), moves(n), states(n + 1))
  {
    hide Inv, Next;
    FairRunIsSafe(cap, states, moves, n);
  }

  /** Until time j the rank has dropped, or the threads and the ring are as they were. */
  lemma {:induction false} StillOrLower(cap: nat, states: nat -> Sys, moves: nat -> Move, n: nat, j: nat)
    requires FairRun(cap, states, moves) && n <= j && states(n).quit
    ensures states(j).quit && Rank(states(j)) <= Rank(states(n))
    ensures Rank(states(j)) == Rank(states(n)) ==>
              states(j).prod == states(n).prod && states(j).cons == states(n).cons && states(j).ring == states(n).ring
    decreases j - n
  {
    hide Inv, Next, Rank, FairRun;
    if n < j {
      StillOrLower(cap, states, moves, n, j - 1);
      StepAt(cap, states, moves, j - 1);
      NextKeepsRank(cap, states(j - 1), moves(j - 1), states(j - 1 + 1));
    }
  }

  lemma NextMoves(cap: nat, states: nat -> Sys, moves: nat -> Move, n: nat) returns (p: nat, c: nat)
    requires FairRun(cap, states, moves)
    ensures n <= p && moves(p).ProdMove? && n <= c && moves(c).ConsMove?
  {
    hide Inv, Next;
    assert ProducerScheduledAfter(moves, n) && ConsumerScheduledAfter(moves, n);
    p :| n <= p && moves(p).ProdMove?;
    c :| n <= c && moves(c).ConsMove?;
  }

  /** While a thread is still running, some later state has less work left. */
  lemma WorkShrinks(cap: nat, states: nat -> Sys, moves: nat -> Move, n: nat) returns (later: nat)
    requires FairRun(cap, states, moves) && states(n).quit && !BothDone(states(n))
    ensures n < later && states(later).quit && Rank(states(later)) < Rank(states(n))
  {
    hide Inv, Next, Rank, FairRun, Spins;
    var p, c := NextMoves(cap, states, moves, n);
    var j := if states(n).cons.CDone? then p else c;
    StillOrLower(cap, states, moves, n, j);
    StepAt(cap, states, moves, j);
    if states(j).cons.CDone? {
      NoSpinAfterConsumerExit(cap, states(j));
    }
    NextKeepsRank(cap, states(j), moves(j), states(j + 1));
    later := j + 1;
  }

  /**
   Shutdown completes: from any state with quit set, full ring or device gone, every fair
   interleaving reaches a state where both threads have exited.
   */
  lemma {:induction false} ShutdownCompletes(cap: nat, states: nat -> Sys, moves: nat -> Move, n: nat) returns (m: nat)
    requires FairRun(cap, states, moves) && states(n).quit
    ensures n <= m && BothDone(states(m)) && |states(m).ring| <= 32
    decreases Rank(states(n))
  {
    hide Next, Rank, FairRun;
    if BothDone(states(n)) {
      m := n;
      FairRunIsSafe(cap, states, moves, n);
    } else {
      hide Inv;
      var later := WorkShrinks(cap, states, moves, n);
      m := ShutdownCompletes(cap, states, moves, later);
    }
  }

  // ----- the drain does not always empty the ring -----

  function Start(): Sys {
    Sys(false, true, 0, [], PTop, CTop, 0, 0, 0, [], [], [], [])
  }

  /**
   A run that leaves a packet behind: the producer takes it, quit is set, the consumer finds the
   ring empty and exits, and only then is the packet pushed.
   */
  lemma DrainCanMissAPacket(cap: nat) returns (states: seq<Sys>, moves: seq<Move>)
    requires BURST <= cap
    ensures Run(cap, states, moves) && |states| > 0
    ensures BothDone(states[|states| - 1]) && states[|states| - 1].ring == [Pkt(7, 60)]
  {
    var p := Pkt(7, 60);
    moves := [ProdMove([], 0), ProdMove([], 0), ProdMove([p], 0), StopMove,
              ConsMove(0), ConsMove(0), ProdMove([], 1), ProdMove([], 0)];
    var s0 := Start();
    var s1 := ProdStep(s0, [], 0);
    var s2 := ProdStep(s1, [], 0);
    var s3 := ProdStep(s2, [p], 0);
    var s4 := s3.(quit := true);
    var s5 := ConsStep(s4, 0);
    var s6 := ConsStep(s5, 0);
    var s7 := ProdStep(s6, [], 1);
    var s8 := ProdStep(s7, [], 0);
    states := [s0, s1, s2, s3, s4, s5, s6, s7, s8];
    assert s7.ring == [p] && s8.prod.PDone? && s8.cons.CDone?;
  }

  // ----- a guest that refuses -----

  /** A run built so far, one move longer. */
  lemma Extend(cap: nat, states: seq<Sys>, moves: seq<Move>, move: Move, s: Sys)
    requires Run(cap, states, moves) && Next(cap, states[|moves|], move, s)
    ensures Run(cap, states + [s], moves + [move]) && |states| == |moves| + 1
  {
  }

  /** The guest refuses n times in a row. */
  lemma {:induction false} Refuses(cap: nat, states: seq<Sys>, moves: seq<Move>, s: Sys, p: Pkt, r: nat, n: nat)
    returns (states': seq<Sys>, moves': seq<Move>)
    requires Run(cap, states, moves) && |states| == |moves| + 1
    requires states[|moves|] == s.(cons := CSend([p], 0, r)) && r + n <= MAX_RETRIES
    ensures Run(cap, states', moves') && |states'| == |moves'| + 1
    ensures states'[|moves'|] == s.(cons := CSend([p], 0, r + n))
    decreases n
  {
    states', moves' := states, moves;
    if n > 0 {
      var t, t' := states[|moves|], s.(cons := CSend([p], 0, r + 1));
      assert t.delivered + [p][0..0] == t.delivered;
      assert ConsStep(t, 0) == t';
      hide ConsStep;
      Extend(cap, states, moves, ConsMove(0), t');
      states', moves' := Refuses(cap, states + [t'], moves + [ConsMove(0)], s, p, r + 1, n - 1);
    }
  }

  /** One packet goes through the ring into the consumer's hand. */
  lemma OnePacketInHand(cap: nat) returns (states: seq<Sys>, moves: seq<Move>)
    requires BURST <= cap
    ensures Run(cap, states, moves) && |states| == |moves| + 1
    ensures states[|moves|] == Start().(cons := CSend([Pkt(7, 60)], 0, 0), taken := [Pkt(7, 60)], rxPkts := 1)
  {
    var p := Pkt(7, 60);
    var s0 := Start();
    var s4 := s0.(ring := [p], taken := [p], rxPkts := 1);
    states, moves := [s0], [];
    states, moves := Pushes(cap, states, moves, p);
    hide Run;
    var s5, s6 := s4.(cons := CChecked), s4.(cons := CFetch);
    var s7 := s4.(ring := [], cons := CSend([p], 0, 0));
    Extend(cap, states, moves, ConsMove(0), s5);
    states, moves := states + [s5], moves + [ConsMove(0)];
    Extend(cap, states, moves, ConsMove(0), s6);
    states, moves := states + [s6], moves + [ConsMove(0)];
    assert s6.ring[..1] == [p] && s6.ring[1..] == [];
    Extend(cap, states, moves, ConsMove(1), s7);
    states, moves := states + [s7], moves + [ConsMove(1)];
  }

  /** The producer takes a packet from the guest and puts it into the ring. */
  lemma Pushes(cap: nat, states: seq<Sys>, moves: seq<Move>, p: Pkt) returns (states': seq<Sys>, moves': seq<Move>)
    requires BURST <= cap && Run(cap, states, moves) && |states| == |moves| + 1 && states[|moves|] == Start()
    ensures Run(cap, states', moves') && |states'| == |moves'| + 1
    ensures states'[|moves'|] == Start().(ring := [p], taken := [p], rxPkts := 1)
  {
    hide Run;
    var s0 := Start();
    var s1, s2 := s0.(prod := PChecked), s0.(prod := PFetch);
    var s3 := s0.(prod := PPush([p], 0), taken := [p]);
    var s4 := s0.(ring := [p], taken := [p], rxPkts := 1);
    Extend(cap, states, moves, ProdMove([], 0), s1);
    states', moves' := states + [s1], moves + [ProdMove([], 0)];
    Extend(cap, states', moves', ProdMove([], 0), s2);
    states', moves' := states' + [s2], moves' + [ProdMove([], 0)];
    Extend(cap, states', moves', ProdMove([p], 0), s3);
    states', moves' := states' + [s3], moves' + [ProdMove([p], 0)];
    assert s3.ring + [p][0..1] == [p];
    Extend(cap, states', moves', ProdMove([], 1), s4);
    states', moves' := states' + [s4], moves' + [ProdMove([], 1)];
  }

  /**
   A run that loses a packet: the guest refuses all 1000 attempts, the packet is dropped, and after
   both threads have exited the byte counter shows 60 bytes although none was delivered.
   */
  lemma RefusedPacketIsLost(cap: nat) returns (states: seq<Sys>, moves: seq<Move>)
    requires BURST <= cap
    ensures Run(cap, states, moves) && |states| == |moves| + 1
    ensures var s := states[|moves|];
      && BothDone(s) && s.taken == [Pkt(7, 60)] && s.delivered == [] && Of(s.past, Dropped) == [Pkt(7, 60)]
      && s.txBytes == 60 && SumLen(s.delivered) == 0
  {
    hide Run, Of;
    var p := Pkt(7, 60);
    var s := Start().(cons := CSend([p], 0, 0), taken := [p], rxPkts := 1);
    states, moves := OnePacketInHand(cap);
    states, moves := Refuses(cap, states, moves, s, p, 0, MAX_RETRIES);
    states, moves := Drops(cap, states, moves, s, p);
    states, moves := ShutsDown(cap, states, moves, states[|moves|]);
  }

  /** The step after the last attempt. */
  lemma Drops(cap: nat, states: seq<Sys>, moves: seq<Move>, s: Sys, p: Pkt)
    returns (states': seq<Sys>, moves': seq<Move>)
    requires Run(cap, states, moves) && |states| == |moves| + 1
    requires states[|moves|] == s.(cons := CSend([p], 0, MAX_RETRIES)) && s.txBytes == 0 && s.past == [] && p.len < W64
    ensures Run(cap, states', moves') && |states'| == |moves'| + 1
    ensures var s' := states'[|moves'|];
      && s' == s.(cons := CTop, txBytes := p.len, txPkts := s.txPkts % W64, freed := s'.freed, past := s'.past)
      && Of(s'.past, Dropped) == [p]
  {
    hide Run, Of, SumLen, Mark;
    var t := s.(cons := CSend([p], 0, MAX_RETRIES));
    GivesUpOn(s, p);
    assert ConsStep(t, 0) == Finish(t);
    hide Finish, ConsStep;
    Extend(cap, states, moves, ConsMove(0), Finish(t));
    states', moves' := states + [Finish(t)], moves + [ConsMove(0)];
  }

  /** Stopping an idle system. */
  lemma ShutsDown(cap: nat, states: seq<Sys>, moves: seq<Move>, s: Sys) returns (states': seq<Sys>, moves': seq<Move>)
    requires Run(cap, states, moves) && |states| == |moves| + 1 && states[|moves|] == s
    requires s.ring == [] && s.prod == PTop && s.cons == CTop
    ensures Run(cap, states', moves') && |states'| == |moves'| + 1
    ensures states'[|moves'|] == s.(quit := true, prod := PDone, cons := CDone)
  {
    hide Run;
    var s1 := s.(quit := true);
    Extend(cap, states, moves, StopMove, s1);
    states', moves' := states + [s1], moves + [StopMove];
    var s2 := s1.(prod := PDone);
    Extend(cap, states', moves', ProdMove([], 0), s2);
    states', moves' := states' + [s2], moves' + [ProdMove([], 0)];
    var s3 := s2.(cons := CDrain);
    Extend(cap, states', moves', ConsMove(0), s3);
    states', moves' := states' + [s3], moves' + [ConsMove(0)];
    var s4 := s3.(cons := CDone);
    Extend(cap, states', moves', ConsMove(0), s4);
    states', moves' := states' + [s4], moves' + [ConsMove(0)];
  }

  lemma GivesUpOn(s: Sys, p: Pkt)
    requires s.txBytes == 0 && s.past == [] && p.len < W64
    ensures var s' := Finish(s.(cons := CSend([p], 0, MAX_RETRIES)));
      && s' == s.(cons := CTop, txBytes := p.len, txPkts := s.txPkts % W64, freed := s'.freed, past := s'.past)
      && Of(s'.past, Dropped) == [p]
  {
    assert [p][..0] == [] && [p][0..] == [p];
    assert SumLen([p]) == p.len by {
      assert [p][..0] == [];
    }
    var past := Finish(s.(cons := CSend([p], 0, MAX_RETRIES))).past;
    assert past == [Exit(p, Dropped)];
    assert past[..0] == [];
  }
}
