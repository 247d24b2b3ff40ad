/** What the device callbacks mean for the two threads: bursts move only for a device that is there. */
module PipelineDevice {
  import opened Pipeline
  import opened PipelineSafety

  // ----- which device is there -----

  /** NewDevice(v) at j, and since then neither another device nor the removal of this one. */
  ghost predicate Present(moves: seq<Move>, n: nat, j: nat, v: int)
    requires n <= |moves|
  {
    && j < n && moves[j] == NewDevice(v)
    && forall i | j < i < n :: !moves[i].NewDevice? && moves[i] != DestroyDevice(v)
  }

  ghost predicate SomeDevice(moves: seq<Move>, n: nat, v: int)
    requires n <= |moves|
  {
    exists j :: Present(moves, n, j, v)
  }

  lemma PresentGrows(moves: seq<Move>, n: nat, j: nat, v: int)
    requires n < |moves|
    ensures Present(moves, n + 1, j, v) <==>
              if moves[n].NewDevice? then j == n && moves[n] == NewDevice(v)
              else Present(moves, n, j, v) && moves[n] != DestroyDevice(v)
  {
  }

  lemma SomeDeviceGrows(moves: seq<Move>, n: nat, v: int)
    requires n < |moves|
    ensures SomeDevice(moves, n + 1, v) <==>
              if moves[n].NewDevice? then moves[n] == NewDevice(v)
              else SomeDevice(moves, n, v) && moves[n] != DestroyDevice(v)
  {
    hide Present;
    PresentGrows(moves, n, n, v);
    if j :| Present(moves, n, j, v) {
      PresentGrows(moves, n, j, v);
    }
    var m := n + 1;
    if j :| Present(moves, m, j, v) {
      PresentGrows(moves, n, j, v);
    }
  }

  /**
   Over every run that starts without a device: the threads see a device, and see it as v, exactly
   when v was the last to arrive and has not been removed since.
   */
  lemma {:induction false} ReadyIsPresent(cap: nat, states: seq<Sys>, moves: seq<Move>, n: nat, v: int)
    requires Run(cap, states, moves) && n < |states| && !states[0].ready
    ensures states[n].ready && states[n].vid == v <==> SomeDevice(moves, n, v)
  {
    hide ProdStep, ConsStep, ProdLegal, ConsLegal, SomeDevice;
    if n == 0 {
      NoDeviceYet(moves, v);
    } else {
      var k := n - 1;
      ReadyIsPresent(cap, states, moves, k, v);
      SomeDeviceGrows(moves, k, v);
      assert Next(cap, states[k], moves[k], states[k + 1]);
      if !Callback(moves[k]) {
        ThreadsLeaveDevice(cap, states[k], moves[k], states[k + 1]);
      }
    }
  }

  /** Removing a device that is not the current one changes nothing. */
  lemma OtherRemovalIsIgnored(cap: nat, s: Sys, v: int, s': Sys)
    requires Next(cap, s, DestroyDevice(v), s')
    ensures s.vid != v ==> s' == s
    ensures s.vid == v ==> s' == s.(ready := s'.ready, vid := s'.vid) && !s'.ready && s'.vid == -1
  {
  }

  lemma NoDeviceYet(moves: seq<Move>, v: int)
    ensures !SomeDevice(moves, 0, v)
  {
  }

  predicate Callback(move: Move) {
    move.NewDevice? || move.DestroyDevice?
  }

  lemma ThreadsLeaveDevice(cap: nat, s: Sys, move: Move, s': Sys)
    requires Next(cap, s, move, s') && !Callback(move)
    ensures s'.ready == s.ready && s'.vid == s.vid
  {
    hide SumLen, Mark, DistinctBuffers;
  }

  // ----- no device, no bursts -----

  ghost predicate NoArrival(moves: seq<Move>, a: nat, b: nat)
    requires b <= |moves|
  {
    forall i | a <= i < b :: !moves[i].NewDevice?
  }

  /** Neither thread has got past its readiness test, and nothing has moved. */
  predicate Untouched(s: Sys) {
    && !s.ready && s.taken == [] && s.delivered == [] && s.ring == []
    && (s.prod.PTop? || s.prod.PChecked? || s.prod.PDone?)
    && (s.cons.CTop? || s.cons.CChecked? || s.cons.CDrain? || s.cons.CDone?)
  }

  /** Until a device arrives nothing is taken from a guest and nothing delivered to one. */
  lemma {:induction false} NothingMovesWithoutDevice(cap: nat, states: seq<Sys>, moves: seq<Move>, n: nat)
    requires Run(cap, states, moves) && n < |states| && !states[0].ready && NoArrival(moves, 0, n)
    ensures Untouched(states[n])
  {
    if n > 0 {
      var k := n - 1;
      NothingMovesWithoutDevice(cap, states, moves, k);
      assert Next(cap, states[k], moves[k], states[k + 1]);
      hide SumLen, Mark, DistinctBuffers;
    }
  }

  // ----- after a device has gone -----

  predicate ProdFetches(s: Sys, move: Move) {
    move.ProdMove? && s.prod.PFetch? && move.burst != []
  }

  predicate ConsFetches(s: Sys, move: Move) {
    move.ConsMove? && s.cons.CFetch? && move.count > 0
  }

  /** Bursts the two threads fetch in the steps from a to b: from the guest, and for the guest. */
  function Fetches(states: seq<Sys>, moves: seq<Move>, a: nat, b: nat): (int, int)
    requires b <= |moves| <= |states|
  {
    if b <= a then (0, 0)
    else
      var f := Fetches(states, moves, a, b - 1);
      (f.0 + if ProdFetches(states[b - 1], moves[b - 1]) then 1 else 0,
       f.1 + if ConsFetches(states[b - 1], moves[b - 1]) then 1 else 0)
  }

  /** A step without a device: a thread gets to its fetch only by having been there. */
  lemma IdleStep(cap: nat, s: Sys, move: Move, s': Sys)
    requires Next(cap, s, move, s') && !s.ready && !move.NewDevice?
    ensures !s'.ready
    ensures s'.prod.PFetch? ==> s.prod.PFetch? && !ProdFetches(s, move)
    ensures s'.cons.CFetch? ==> s.cons.CFetch? && !ConsFetches(s, move)
    ensures ProdFetches(s, move) ==> s.prod.PFetch? && s'.taken == s.taken + move.burst && |move.burst| <= 32
    ensures !ProdFetches(s, move) ==> s'.taken == s.taken
    ensures ConsFetches(s, move) ==> s.cons.CFetch?
  {
    hide SumLen, Mark, DistinctBuffers;
  }

  /**
   Once the current device is gone, and until one arrives, each thread fetches at most one burst,
   and only one whose readiness test came before the removal.
   */
  lemma {:induction false} AtMostOneLateBurst(cap: nat, states: seq<Sys>, moves: seq<Move>, d: nat, n: nat)
    requires Run(cap, states, moves) && d < n < |states|
    requires moves[d].DestroyDevice? && moves[d].vid == states[d].vid && NoArrival(moves, d, n)
    ensures !states[n].ready
    ensures var f := Fetches(states, moves, d, n);
      && f.0 + (if states[n].prod.PFetch? then 1 else 0) <= (if states[d].prod.PFetch? then 1 else 0)
      && f.1 + (if states[n].cons.CFetch? then 1 else 0) <= (if states[d].cons.CFetch? then 1 else 0)
      && states[d].taken <= states[n].taken && |states[n].taken| <= |states[d].taken| + 32 * f.0
      && 0 <= f.0 && 0 <= f.1
  {
    var k := n - 1;
    assert Next(cap, states[k], moves[k], states[k + 1]);
    if k > d {
      hide Next;
      AtMostOneLateBurst(cap, states, moves, d, k);
      IdleStep(cap, states[k], moves[k], states[k + 1]);
    } else {
      OtherRemovalIsIgnored(cap, states[d], moves[d].vid, states[d + 1]);
      assert Fetches(states, moves, d, d) == (0, 0);
    }
  }
}
