/**
 The loopback pipeline of the vhost controller: a producer thread moves bursts of packets from
 the guest into a bounded ring, a consumer thread moves them from the ring back to the guest,
 and a quit flag shuts both down. Every step is one access to shared state.
 */
module Pipeline {
  import opened Words

  const BURST: nat := 32
  const MAX_RETRIES: nat := 1000

  /** A packet buffer: the handle of the mbuf, and the packet's length. */
  datatype Pkt = Pkt(buf: nat, len: nat)

  datatype Producer =
    | PTop
    | PChecked
    | PFetch
    | PPush(pkts: seq<Pkt>, sent: nat)
    | PDone

  datatype Consumer =
    | CTop
    | CChecked
    | CFetch
    | CSend(burst: seq<Pkt>, accepted: nat, retries: nat)
    | CDrain
    | CDone

  /** How a packet left the pipeline. */
  datatype Fate = Delivered | Dropped | Drained

  datatype Exit = Exit(pkt: Pkt, fate: Fate)

  /**
   Shared flags, ring, the two threads and their counters; then the record of the run: packets
   taken from the guest, packets that left (in ring order), packets the guest received, buffers
   freed.
   */
  datatype Sys = Sys(
    quit: bool, ready: bool, vid: int, ring: seq<Pkt>,
    prod: Producer, cons: Consumer,
    rxPkts: nat, txPkts: nat, txBytes: nat,
    taken: seq<Pkt>, past: seq<Exit>, delivered: seq<Pkt>, freed: seq<Pkt>)

  function Unsent(p: Producer): seq<Pkt> {
    if p.PPush? && p.sent <= |p.pkts| then p.pkts[p.sent..] else []
  }

  function InHand(c: Consumer): seq<Pkt> {
    if c.CSend? then c.burst else []
  }

  /** Every buffer the pipeline owns, oldest first. */
  function Live(s: Sys): seq<Pkt> {
    InHand(s.cons) + s.ring + Unsent(s.prod)
  }

  function SumLen(pkts: seq<Pkt>): nat {
    if pkts == [] then 0 else SumLen(pkts[..|pkts| - 1]) + pkts[|pkts| - 1].len
  }

  function Mark(pkts: seq<Pkt>, fate: Fate): (r: seq<Exit>)
    ensures |r| == |pkts|
    ensures forall k | 0 <= k < |pkts| :: r[k] == Exit(pkts[k], fate)
  {
    seq(|pkts|, k requires 0 <= k < |pkts| => Exit(pkts[k], fate))
  }

  ghost predicate DistinctBuffers(pkts: seq<Pkt>) {
    forall j, k | 0 <= j < k < |pkts| :: pkts[j].buf != pkts[k].buf
  }

  // ----- producer -----

  /** What the producer's calls may return: a burst in fresh buffers, a push of what fits. */
  ghost predicate ProdLegal(cap: nat, s: Sys, burst: seq<Pkt>, k: nat) {
    match s.prod
    case PFetch => |burst| <= BURST && DistinctBuffers(Live(s) + burst)
    case PPush(pkts, sent) =>
      && sent + k <= |pkts| && |s.ring| + k <= cap
      && (sent < |pkts| && |s.ring| < cap ==> k > 0)
    case _ => true
  }

  function ProdStep(s: Sys, burst: seq<Pkt>, k: nat): Sys {
    match s.prod
    case PTop => s.(prod := if s.quit then PDone else PChecked)
    case PChecked => s.(prod := if s.ready then PFetch else PTop)
    case PFetch =>
      if burst == [] then s.(prod := PTop)
      else s.(prod := PPush(burst, 0), taken := s.taken + burst)
    case PPush(pkts, sent) =>
      if sent + k > |pkts| then s
      else
        var pushed := s.(ring := s.ring + pkts[sent..sent + k]);
        if sent + k < |pkts| then pushed.(prod := PPush(pkts, sent + k))
        else pushed.(prod := PTop, rxPkts := (s.rxPkts + |pkts|) % W64)
    case PDone => s
  }

  // ----- consumer -----

  /** What the consumer's calls may return: a pop of what is there, a guest that takes any prefix. */
  predicate ConsLegal(s: Sys, k: nat) {
    match s.cons
    case CFetch => PopLegal(s.ring, k)
    case CSend(burst, accepted, retries) => accepted + k <= |burst|
    case CDrain => PopLegal(s.ring, k)
    case _ => true
  }

  predicate PopLegal(ring: seq<Pkt>, k: nat) {
    k <= |ring| && k <= BURST && (ring != [] ==> k > 0)
  }

  /** The retry loop goes on. */
  predicate Trying(c: Consumer) {
    c.CSend? && c.accepted < |c.burst| && c.retries < MAX_RETRIES
  }

  function ConsStep(s: Sys, k: nat): Sys
    requires ConsLegal(s, k)
  {
    match s.cons
    case CTop => s.(cons := if s.quit then CDrain else CChecked)
    case CChecked => s.(cons := if s.ready then CFetch else CTop)
    case CFetch =>
      if k == 0 then s.(cons := CTop)
      else s.(ring := s.ring[k..], cons := CSend(s.ring[..k], 0, 0))
    case CSend(burst, accepted, retries) =>
      if Trying(s.cons) then
        var now := accepted + k;
        s.(delivered := s.delivered + burst[accepted..now],
           cons := CSend(burst, now, if now < |burst| then retries + 1 else retries))
      else Finish(s)
    case CDrain =>
      if k == 0 then s.(cons := CDone)
      else
        s.(ring := s.ring[k..], freed := s.freed + s.ring[..k],
           past := s.past + Mark(s.ring[..k], Drained))
    case CDone => s
  }

  /** Accounting of a burst and release of its buffers, undelivered ones first. */
  function Finish(s: Sys): Sys
    requires s.cons.CSend?
  {
    var c := s.cons;
    var a := if c.accepted <= |c.burst| then c.accepted else |c.burst|;
    s.(cons := CTop,
       txBytes := (s.txBytes + SumLen(c.burst)) % W64,
       txPkts := (s.txPkts + a) % W64,
       freed := s.freed + c.burst[a..] + c.burst[..a],
       past := s.past + Mark(c.burst[..a], Delivered) + Mark(c.burst[a..], Dropped))
  }

  // ----- the whole system -----

  datatype Move =
    | ProdMove(burst: seq<Pkt>, pushed: nat)
    | ConsMove(count: nat)
    | StopMove
    | NewDevice(vid: int)
    | DestroyDevice(vid: int)

  ghost predicate Next(cap: nat, s: Sys, move: Move, s': Sys) {
    match move
    case ProdMove(burst, k) => ProdLegal(cap, s, burst, k) && s' == ProdStep(s, burst, k)
    case ConsMove(k) => ConsLegal(s, k) && s' == ConsStep(s, k)
    case StopMove => s' == s.(quit := true)
    case NewDevice(vid) => s' == s.(vid := vid, ready := true)
    case DestroyDevice(vid) => s' == if s.vid == vid then s.(ready := false, vid := -1) else s
  }

  predicate Init(s: Sys) {
    && s.ring == [] && s.prod == PTop && s.cons == CTop
    && s.rxPkts == s.txPkts == s.txBytes == 0
    && s.taken == [] && s.past == [] && s.delivered == [] && s.freed == []
  }

  ghost predicate Run(cap: nat, states: seq<Sys>, moves: seq<Move>) {
    && |states| == |moves| + 1 && Init(states[0])
    && forall k | 0 <= k < |moves| :: Next(cap, states[k], moves[k], states[k + 1])
  }
}
