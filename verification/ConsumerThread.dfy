/**
 The consumer thread's two loops as loops, with the producer, the device callbacks and stop()
 taking any number of turns between every two of its accesses to shared state.
 */
module ConsumerThread {
  import opened Words
  import opened Pipeline
  import opened PipelineSafety
  import opened PipelineRuns
  import opened PipelineShutdown

  ghost predicate OthersPath(cap: nat, states: seq<Sys>, moves: seq<Move>, s: Sys, s': Sys) {
    && |states| == |moves| + 1 && states[0] == s && states[|moves|] == s'
    && forall k | 0 <= k < |moves| :: !moves[k].ConsMove? && Next(cap, states[k], moves[k], states[k + 1])
  }

  ghost predicate OthersRun(cap: nat, s: Sys, s': Sys) {
    exists states: seq<Sys>, moves: seq<Move> :: OthersPath(cap, states, moves, s, s')
  }

  /** What the consumer may rely on across the turns of the others. */
  ghost predicate Undisturbed(cap: nat, s: Sys, s': Sys) {
    && Inv(cap, s')
    && s' == s.(quit := s'.quit, ready := s'.ready, vid := s'.vid, ring := s'.ring, prod := s'.prod,
                rxPkts := s'.rxPkts, taken := s'.taken)
    && s.ring <= s'.ring && s.taken <= s'.taken
    && (s.quit ==> s'.quit && Rank(s') <= Rank(s))
  }

  lemma MoveUndisturbed(cap: nat, s: Sys, move: Move, s': Sys)
    requires Inv(cap, s) && !move.ConsMove? && Next(cap, s, move, s')
    ensures Undisturbed(cap, s, s')
  {
    hide Inv, Rank;
    NextKeepsInv(cap, s, move, s');
    if s.quit {
      NextKeepsRank(cap, s, move, s');
    }
  }

  lemma {:induction false} PathUndisturbed(cap: nat, states: seq<Sys>, moves: seq<Move>, s: Sys, s': Sys)
    requires Inv(cap, s) && OthersPath(cap, states, moves, s, s')
    ensures Undisturbed(cap, s, s')
    decreases |moves|
  {
    hide Inv, Next, Rank;
    if moves != [] {
      var n := |moves| - 1;
      assert OthersPath(cap, states[..n + 1], moves[..n], s, states[n]);
      PathUndisturbed(cap, states[..n + 1], moves[..n], s, states[n]);
      MoveUndisturbed(cap, states[n], moves[n], states[n + 1]);
    }
  }

  /** The rest of the system: what it does in its turn at time t. */
  type Others = (nat, Sys) -> Sys

  ghost predicate Play(cap: nat, env: Others) {
    forall t, s :: Inv(cap, s) ==> OthersRun(cap, s, env(t, s))
  }

  /** The guest: how many of the offered packets it takes at attempt t. */
  type Guest = nat -> nat

  /** The ring: how many packets the dequeue at time t would like to return. */
  type Pops = nat -> nat

  class VhostController {
    const cap: nat

    // shared with the producer, the callbacks and stop()
    var quit: bool
    var ready: bool
    var vid: int
    var ring: seq<Pkt>
    var prod: Producer
    var rxPkts: nat

    // the consumer's own
    var txPkts: nat
    var txBytes: nat

    // the record of the run
    var taken: seq<Pkt>
    var past: seq<Exit>
    var delivered: seq<Pkt>
    var freed: seq<Pkt>
    var clock: nat

    /** The system with the consumer standing at c. */
    function Now(c: Consumer): Sys
      reads this
    {
      Sys(quit, ready, vid, ring, prod, c, rxPkts, txPkts, txBytes, taken, past, delivered, freed)
    }

    constructor (cap: nat)
      requires BURST <= cap
      ensures Init(Now(CTop)) && Inv(cap, Now(CTop)) && this.cap == cap
    {
      this.cap := cap;
      quit, ready, vid, ring, prod := false, false, -1, [], PTop;
      rxPkts, txPkts, txBytes, clock := 0, 0, 0, 0;
      taken, past, delivered, freed := [], [], [], [];
    }

    method OthersTurn(env: Others, here: Consumer)
      requires Inv(cap, Now(here)) && Play(cap, env)
      modifies this
      ensures Undisturbed(cap, old(Now(here)), Now(here))
    {
      hide Inv, Rank;
      var s := env(clock, Now(here));
      assert OthersRun(cap, Now(here), s);
      ghost var states, moves :| OthersPath(cap, states, moves, Now(here), s);
      PathUndisturbed(cap, states, moves, Now(here), s);
      clock := clock + 1;
      quit, ready, vid, ring, prod, rxPkts, taken := s.quit, s.ready, s.vid, s.ring, s.prod, s.rxPkts, s.taken;
    }

    /** One attempt to hand the rest of the burst to the guest. */
    method Attempt(guest: Guest, burst: seq<Pkt>, sent: nat, retries: nat) returns (sent': nat, retries': nat)
      requires Trying(CSend(burst, sent, retries)) && Inv(cap, Now(CSend(burst, sent, retries)))
      modifies `delivered, `clock
      ensures Inv(cap, Now(CSend(burst, sent', retries')))
      ensures ConsRank(CSend(burst, sent', retries')) < ConsRank(CSend(burst, sent, retries))
      ensures retries' == retries + if sent' < |burst| then 1 else 0
      ensures sent <= sent' <= |burst| && delivered == old(delivered) + burst[sent..sent']
    {
      hide Inv;
      var offer := |burst| - sent;
      var k := if guest(clock) < offer then guest(clock) else offer;
      ConsKeepsInv(cap, Now(CSend(burst, sent, retries)), k);
      clock := clock + 1;
      delivered := delivered + burst[sent..sent + k];
      sent', retries' := sent + k, if sent + k < |burst| then retries + 1 else retries;
    }

    /**
     One burst: the retry loop, the accounting and the release of the buffers. It ends for every
     guest and every producer; the guest has received a prefix of the burst, all of it unless
     every attempt was used up; every buffer of the burst is freed.
     */
    method Deliver(env: Others, guest: Guest, burst: seq<Pkt>) returns (sent: nat, retries: nat)
      requires burst != [] && |burst| <= BURST
      requires Inv(cap, Now(CSend(burst, 0, 0))) && Play(cap, env)
      modifies this
      ensures Inv(cap, Now(CTop))
      ensures sent <= |burst| && delivered == old(delivered) + burst[..sent]
      ensures sent == |burst| || retries == MAX_RETRIES
      ensures freed == old(freed) + burst[sent..] + burst[..sent]
      ensures past == old(past) + Mark(burst[..sent], Delivered) + Mark(burst[sent..], Dropped)
      ensures txPkts == (old(txPkts) + sent) % W64 && txBytes == (old(txBytes) + SumLen(burst)) % W64
      ensures old(taken) <= taken
    {
      hide Inv, ConsRank, Rank, Play, SumLen, Mark;
      sent, retries := 0, 0;
      while sent < |burst| && retries < MAX_RETRIES
        invariant sent <= |burst| && retries <= MAX_RETRIES
        invariant Inv(cap, Now(CSend(burst, sent, retries)))
        invariant delivered == old(delivered) + burst[..sent] && old(taken) <= taken
        invariant freed == old(freed) && past == old(past)
        invariant txPkts == old(txPkts) && txBytes == old(txBytes)
        decreases ConsRank(CSend(burst, sent, retries))
      {
        OthersTurn(env, CSend(burst, sent, retries));
        ghost var before := sent;
        sent, retries := Attempt(guest, burst, sent, retries);
        assert burst[..sent] == burst[..before] + burst[before..sent];
      }
      FinishKeepsInv(cap, Now(CSend(burst, sent, retries)));
      txBytes := (txBytes + SumLen(burst)) % W64;
      txPkts := (txPkts + sent) % W64;
      freed := freed + burst[sent..] + burst[..sent];
      past := past + Mark(burst[..sent], Delivered) + Mark(burst[sent..], Dropped);
    }

    /**
     The final drain. Once quit is set it ends for every producer, because the producer adds at
     most what it still holds; whatever it took out is freed, nothing more is delivered.
     */
    method Drain(env: Others, pops: Pops)
      requires quit && Inv(cap, Now(CDrain)) && Play(cap, env)
      modifies this
      ensures quit && Inv(cap, Now(CDone))
      ensures delivered == old(delivered) && txPkts == old(txPkts) && txBytes == old(txBytes)
      ensures old(past) <= past && old(freed) <= freed
      ensures |past| - |old(past)| == |freed| - |old(freed)|
    {
      hide Inv, Rank, Play;
      var remaining := 1;
      while remaining > 0
        invariant quit && Inv(cap, Now(if remaining > 0 then CDrain else CDone))
        invariant delivered == old(delivered) && txPkts == old(txPkts) && txBytes == old(txBytes)
        invariant old(past) <= past && old(freed) <= freed
        invariant |past| - |old(past)| == |freed| - |old(freed)|
        decreases remaining > 0, Rank(Now(CDrain))
      {
        OthersTurn(env, CDrain);
        var k := PopCount(pops(clock), |ring|);
        ConsKeepsInv(cap, Now(CDrain), k);
        ConsLowersRank(cap, Now(CDrain), k);
        clock := clock + 1;
        if k > 0 {
          var pkts := ring[..k];
          ring, freed, past := ring[k..], freed + pkts, past + Mark(pkts, Drained);
        }
        remaining := k;
      }
    }
  }

  /** A dequeue burst takes between one and BURST of what is there. */
  function PopCount(wish: nat, there: nat): (k: nat)
    ensures k <= there && k <= BURST && (there > 0 ==> k > 0)
  {
    var most := if there < BURST then there else BURST;
    if wish == 0 && most > 0 then 1 else if wish < most then wish else most
  }
}
