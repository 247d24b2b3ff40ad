/** Conservation, order and accounting of the pipeline, kept by every step. */
module PipelineSafety {
  import opened Words
  import opened Pipeline

  /** The packets of the exits, in order. */
  function Pkts(past: seq<Exit>): (r: seq<Pkt>)
    ensures |r| == |past|
    ensures forall k | 0 <= k < |past| :: r[k] == past[k].pkt
  {
    seq(|past|, k requires 0 <= k < |past| => past[k].pkt)
  }

  /** The packets that left with one fate, in order. */
  function Of(past: seq<Exit>, fate: Fate): seq<Pkt> {
    if past == [] then []
    else
      var last := past[|past| - 1];
      Of(past[..|past| - 1], fate) + if last.fate == fate then [last.pkt] else []
  }

  lemma {:induction false} OfConcat(a: seq<Exit>, b: seq<Exit>, fate: Fate)
    ensures Of(a + b, fate) == Of(a, fate) + Of(b, fate)
  {
    if b == [] {
      assert a + b == a;
    } else {
      OfConcat(a, b[..|b| - 1], fate);
      assert (a + b)[..|a + b| - 1] == a + b[..|b| - 1];
    }
  }

  lemma {:induction false} OfMark(pkts: seq<Pkt>, fate: Fate, other: Fate)
    ensures Of(Mark(pkts, fate), other) == if fate == other then pkts else []
  {
    if pkts != [] {
      OfMark(pkts[..|pkts| - 1], fate, other);
      assert Mark(pkts, fate)[..|pkts| - 1] == Mark(pkts[..|pkts| - 1], fate);
      assert pkts == pkts[..|pkts| - 1] + [pkts[|pkts| - 1]];
    }
  }

  lemma PktsConcat(a: seq<Exit>, b: seq<Exit>)
    ensures Pkts(a + b) == Pkts(a) + Pkts(b)
  {
  }

  lemma PktsMark(pkts: seq<Pkt>, fate: Fate)
    ensures Pkts(Mark(pkts, fate)) == pkts
  {
  }

  lemma {:induction false} SumConcat(a: seq<Pkt>, b: seq<Pkt>)
    ensures SumLen(a + b) == SumLen(a) + SumLen(b)
  {
    if b == [] {
      assert a + b == a;
    } else {
      SumConcat(a, b[..|b| - 1]);
      assert (a + b)[..|a + b| - 1] == a + b[..|b| - 1];
    }
  }

  // ----- the invariant -----

  /** Every packet taken is somewhere, exactly once, in the order taken. */
  predicate Balanced(s: Sys) {
    s.taken == Pkts(s.past) + Live(s)
  }

  function Accepted(c: Consumer): seq<Pkt> {
    if c.CSend? && c.accepted <= |c.burst| then c.burst[..c.accepted] else []
  }

  predicate DeliveredInOrder(s: Sys) {
    s.delivered == Of(s.past, Delivered) + Accepted(s.cons)
  }

  predicate FreedOnce(s: Sys) {
    multiset(s.freed) == multiset(Pkts(s.past))
  }

  predicate Counted(s: Sys) {
    && s.rxPkts == (|s.taken| - if s.prod.PPush? then |s.prod.pkts| else 0) % W64
    && s.txPkts == |Of(s.past, Delivered)| % W64
    && s.txBytes == (SumLen(Of(s.past, Delivered)) + SumLen(Of(s.past, Dropped))) % W64
  }

  predicate ProducerOk(s: Sys) {
    s.prod.PPush? ==> s.prod.sent < |s.prod.pkts| <= BURST && |s.prod.pkts| <= |s.taken|
  }

  predicate ConsumerOk(c: Consumer) {
    c.CSend? ==> 0 < |c.burst| <= BURST && c.accepted <= |c.burst| && c.retries <= MAX_RETRIES
  }

  /** What the threads' exits tell about the flag and the ring. */
  predicate ShutdownOk(s: Sys) {
    && (s.cons.CDrain? || s.cons.CDone? || s.prod.PDone? ==> s.quit)
    && (s.cons.CDone? ==>
          && |s.ring| + |Unsent(s.prod)| <= BURST
          && (s.prod.PChecked? || s.prod.PFetch? ==> s.ring == []))
  }

  /** Nothing is drained before the drain. */
  predicate LossOk(s: Sys) {
    !s.cons.CDrain? && !s.cons.CDone? ==> Of(s.past, Drained) == []
  }

  ghost predicate Inv(cap: nat, s: Sys) {
    && BURST <= cap && |s.ring| <= cap
    && Balanced(s)
    && DeliveredInOrder(s)
    && FreedOnce(s)
    && DistinctBuffers(Live(s))
    && Counted(s)
    && ProducerOk(s)
    && ConsumerOk(s.cons)
    && ShutdownOk(s)
    && LossOk(s)
  }

  // ----- producer steps -----

  lemma Reassociate(a: seq<Pkt>, b: seq<Pkt>, c: seq<Pkt>, d: seq<Pkt>)
    ensures a + (b + c) + d == a + b + (c + d)
  {
  }

  lemma PushMoves(hand: seq<Pkt>, ring: seq<Pkt>, pkts: seq<Pkt>, sent: nat, k: nat)
    requires sent + k <= |pkts|
    ensures hand + (ring + pkts[sent..sent + k]) + pkts[sent + k..] == hand + ring + pkts[sent..]
  {
    assert pkts[sent..] == pkts[sent..sent + k] + pkts[sent + k..];
    Reassociate(hand, ring, pkts[sent..sent + k], pkts[sent + k..]);
  }

  lemma PushParts(s: Sys, k: nat)
    requires s.prod.PPush? && s.prod.sent + k <= |s.prod.pkts|
    ensures var s' := ProdStep(s, [], k);
      && s'.cons == s.cons && s'.ring == s.ring + s.prod.pkts[s.prod.sent..s.prod.sent + k]
      && Unsent(s'.prod) == s.prod.pkts[s.prod.sent + k..]
  {
  }

  lemma PushKeepsLive(s: Sys, k: nat)
    requires s.prod.PPush? && s.prod.sent + k <= |s.prod.pkts|
    ensures Live(ProdStep(s, [], k)) == Live(s)
  {
    hide ProdStep, Unsent;
    PushParts(s, k);
    PushMoves(InHand(s.cons), s.ring, s.prod.pkts, s.prod.sent, k);
    assert Unsent(s.prod) == s.prod.pkts[s.prod.sent..] by { UnsentOf(s.prod); }
  }

  lemma UnsentOf(p: Producer)
    requires p.PPush? && p.sent <= |p.pkts|
    ensures Unsent(p) == p.pkts[p.sent..]
  {
  }

  lemma CountWraps(total: nat, base: int, n: nat)
    requires total == base % W64 && base >= 0
    ensures (total + n) % W64 == (base + n) % W64
  {
  }

  lemma PushCounts(s: Sys, k: nat)
    requires Counted(s) && ProducerOk(s) && s.prod.PPush? && s.prod.sent + k <= |s.prod.pkts|
    ensures Counted(ProdStep(s, [], k))
  {
    hide Of, SumLen;
    CountWraps(s.rxPkts, |s.taken| - |s.prod.pkts|, |s.prod.pkts|);
  }

  lemma PushKeepsInv(cap: nat, s: Sys, burst: seq<Pkt>, k: nat)
    requires Inv(cap, s) && s.prod.PPush? && ProdLegal(cap, s, burst, k)
    ensures Inv(cap, ProdStep(s, burst, k))
  {
    hide DistinctBuffers, Of, Pkts, Live, Counted, SumLen;
    PushKeepsLive(s, k);
    PushCounts(s, k);
    assert ProdStep(s, burst, k) == ProdStep(s, [], k);
  }

  lemma FetchKeepsInv(cap: nat, s: Sys, burst: seq<Pkt>, k: nat)
    requires Inv(cap, s) && s.prod.PFetch? && ProdLegal(cap, s, burst, k)
    ensures Inv(cap, ProdStep(s, burst, k))
  {
    hide DistinctBuffers, Of, Pkts;
    var s' := ProdStep(s, burst, k);
    if burst != [] {
      assert Live(s') == Live(s) + burst by {
        assert burst[0..] == burst;
        assert InHand(s.cons) + s.ring + [] == InHand(s.cons) + s.ring;
      }
      assert Pkts(s.past) + Live(s) + burst == Pkts(s.past) + (Live(s) + burst);
    }
  }

  lemma ProdKeepsInv(cap: nat, s: Sys, burst: seq<Pkt>, k: nat)
    requires Inv(cap, s) && ProdLegal(cap, s, burst, k)
    ensures Inv(cap, ProdStep(s, burst, k))
  {
    hide DistinctBuffers, Of, Pkts;
    match s.prod
    case PPush(_, _) => PushKeepsInv(cap, s, burst, k);
    case PFetch => FetchKeepsInv(cap, s, burst, k);
    case _ =>
      assert Live(ProdStep(s, burst, k)) == Live(s);
  }

  // ----- consumer steps -----

  lemma PopKeepsLive(s: Sys, k: nat)
    requires s.cons.CFetch? && 0 < k <= |s.ring| && ConsLegal(s, k)
    ensures Live(ConsStep(s, k)) == Live(s)
  {
    assert s.ring == s.ring[..k] + s.ring[k..];
  }

  lemma PopKeepsInv(cap: nat, s: Sys, k: nat)
    requires Inv(cap, s) && s.cons.CFetch? && ConsLegal(s, k)
    ensures Inv(cap, ConsStep(s, k))
  {
    hide DistinctBuffers, Of, Pkts, Live;
    if k > 0 {
      PopKeepsLive(s, k);
      assert Of(s.past, Delivered) + [] == Of(s.past, Delivered);
    } else {
      assert Live(ConsStep(s, k)) == Live(s) by { NothingInHand(s, ConsStep(s, k)); }
    }
  }

  /** Two systems with equal rings and producers and empty-handed consumers own the same buffers. */
  lemma NothingInHand(s: Sys, s': Sys)
    requires !s.cons.CSend? && !s'.cons.CSend? && s.ring == s'.ring && s.prod == s'.prod
    ensures Live(s) == Live(s')
  {
  }

  lemma DeliveredGrows(base: seq<Pkt>, burst: seq<Pkt>, a: nat, b: nat)
    requires a <= b <= |burst|
    ensures base + burst[..a] + burst[a..b] == base + burst[..b]
  {
    assert burst[..b] == burst[..a] + burst[a..b];
  }

  /** What a consumer owns does not depend on how much of its burst was accepted. */
  lemma SameBurst(s: Sys, s': Sys)
    requires s.cons.CSend? && s'.cons.CSend? && s.cons.burst == s'.cons.burst
    requires s.ring == s'.ring && s.prod == s'.prod
    ensures Live(s) == Live(s')
  {
  }

  lemma TryKeepsInv(cap: nat, s: Sys, k: nat)
    requires Inv(cap, s) && Trying(s.cons) && ConsLegal(s, k)
    ensures Inv(cap, ConsStep(s, k))
  {
    hide DistinctBuffers, Of, Pkts, Live, Counted;
    DeliveredGrows(Of(s.past, Delivered), s.cons.burst, s.cons.accepted, s.cons.accepted + k);
    SameBurst(s, ConsStep(s, k));
    SameCounts(s, ConsStep(s, k));
  }

  /** The counters' account depends only on what was taken, what left, and the producer. */
  lemma SameCounts(s: Sys, s': Sys)
    requires Counted(s)
    requires s'.rxPkts == s.rxPkts && s'.txPkts == s.txPkts && s'.txBytes == s.txBytes
    requires |s'.taken| == |s.taken| && s'.prod == s.prod
    requires Of(s'.past, Delivered) == Of(s.past, Delivered) && Of(s'.past, Dropped) == Of(s.past, Dropped)
    ensures Counted(s')
  {
    hide Of, SumLen;
  }

  lemma DistinctSuffix(a: seq<Pkt>, b: seq<Pkt>)
    requires DistinctBuffers(a + b)
    ensures DistinctBuffers(b)
  {
    forall j, k | 0 <= j < k < |b|
      ensures b[j].buf != b[k].buf
    {
      assert (a + b)[|a| + j] == b[j] && (a + b)[|a| + k] == b[k];
    }
  }

  /** A prefix of the live buffers leaves with its fates; everything else stays in place. */
  lemma LeaveKeepsBalance(s: Sys, s': Sys, gone: seq<Exit>)
    requires Balanced(s) && FreedOnce(s) && DistinctBuffers(Live(s))
    requires Live(s) == Pkts(gone) + Live(s') && s'.past == s.past + gone && s'.taken == s.taken
    requires multiset(s'.freed) == multiset(s.freed) + multiset(Pkts(gone))
    ensures Balanced(s') && FreedOnce(s') && DistinctBuffers(Live(s'))
  {
    hide Live, Pkts;
    PktsConcat(s.past, gone);
    assert Pkts(s.past) + (Pkts(gone) + Live(s')) == Pkts(s.past) + Pkts(gone) + Live(s');
    DistinctSuffix(Pkts(gone), Live(s'));
  }

  lemma TwoMarks(x: seq<Pkt>, y: seq<Pkt>, f: Fate)
    ensures Of(Mark(x, Delivered) + Mark(y, Dropped), f)
         == if f == Delivered then x else if f == Dropped then y else []
  {
    hide Of;
    OfConcat(Mark(x, Delivered), Mark(y, Dropped), f);
    OfMark(x, Delivered, f);
    OfMark(y, Dropped, f);
    assert x + [] == x && [] + y == y;
  }

  lemma SwapKeepsMultiset(x: seq<Pkt>, y: seq<Pkt>)
    ensures multiset(y + x) == multiset(x + y)
  {
  }

  lemma FinishExits(c: Consumer)
    requires c.CSend? && c.accepted <= |c.burst|
    ensures var gone := Mark(c.burst[..c.accepted], Delivered) + Mark(c.burst[c.accepted..], Dropped);
      && Pkts(gone) == c.burst
      && Of(gone, Delivered) == c.burst[..c.accepted]
      && Of(gone, Dropped) == c.burst[c.accepted..]
      && Of(gone, Drained) == []
      && multiset(c.burst[c.accepted..] + c.burst[..c.accepted]) == multiset(c.burst)
  {
    hide Of, Pkts, Mark;
    var x, y := c.burst[..c.accepted], c.burst[c.accepted..];
    TwoMarks(x, y, Delivered);
    TwoMarks(x, y, Dropped);
    TwoMarks(x, y, Drained);
    PktsConcat(Mark(x, Delivered), Mark(y, Dropped));
    PktsMark(x, Delivered);
    PktsMark(y, Dropped);
    SwapKeepsMultiset(x, y);
    assert c.burst == x + y;
  }

  lemma FinishCounts(s: Sys)
    requires Counted(s) && ConsumerOk(s.cons) && s.cons.CSend?
    ensures Counted(Finish(s))
  {
    hide Of, SumLen;
    var c := s.cons;
    var x, y := c.burst[..c.accepted], c.burst[c.accepted..];
    var gone := Mark(x, Delivered) + Mark(y, Dropped);
    assert s.past + Mark(x, Delivered) + Mark(y, Dropped) == s.past + gone;
    FinishExits(c);
    OfConcat(s.past, gone, Delivered);
    OfConcat(s.past, gone, Dropped);
    SumConcat(Of(s.past, Delivered), x);
    SumConcat(Of(s.past, Dropped), y);
    assert c.burst == x + y;
    SumConcat(x, y);
    CountWraps(s.txPkts, |Of(s.past, Delivered)|, |x|);
    CountWraps(s.txBytes, SumLen(Of(s.past, Delivered)) + SumLen(Of(s.past, Dropped)), SumLen(c.burst));
  }

  lemma FinishKeepsInv(cap: nat, s: Sys)
    requires Inv(cap, s) && s.cons.CSend? && !Trying(s.cons)
    ensures Inv(cap, Finish(s))
  {
    hide DistinctBuffers, Of, Pkts, Mark, SumLen, Counted, FreedOnce, Balanced, Live;
    var c := s.cons;
    var s' := Finish(s);
    var gone := Mark(c.burst[..c.accepted], Delivered) + Mark(c.burst[c.accepted..], Dropped);
    assert s'.past == s.past + gone;
    FinishExits(c);
    FinishCounts(s);
    FinishFates(s, gone);
    BurstLeaves(s);
    assert s'.freed == s.freed + (c.burst[c.accepted..] + c.burst[..c.accepted]);
    LeaveKeepsBalance(s, s', gone);
  }

  lemma BurstLeaves(s: Sys)
    requires s.cons.CSend?
    ensures Live(s) == s.cons.burst + Live(Finish(s))
  {
    hide SumLen, Mark, Unsent;
    assert [] + s.ring == s.ring;
  }

  lemma FinishFates(s: Sys, gone: seq<Exit>)
    requires DeliveredInOrder(s) && s.cons.CSend? && s.cons.accepted <= |s.cons.burst| && LossOk(s)
    requires Of(gone, Delivered) == s.cons.burst[..s.cons.accepted] && Of(gone, Drained) == []
    ensures Of(s.past + gone, Drained) == [] && s.delivered == Of(s.past + gone, Delivered)
  {
    hide Of;
    OfConcat(s.past, gone, Delivered);
    OfConcat(s.past, gone, Drained);
  }

  lemma DrainLeaves(s: Sys, s': Sys, k: nat)
    requires !s.cons.CSend? && !s'.cons.CSend? && k <= |s.ring| && s'.ring == s.ring[k..] && s'.prod == s.prod
    ensures Live(s) == s.ring[..k] + Live(s')
  {
    assert s.ring == s.ring[..k] + s.ring[k..];
    Reassociate([], s.ring[..k], s.ring[k..], Unsent(s.prod));
    assert [] + s.ring == s.ring && [] + s'.ring == s'.ring && [] + s.ring[..k] == s.ring[..k];
  }

  lemma DrainExits(past: seq<Exit>, pkts: seq<Pkt>)
    ensures Of(past + Mark(pkts, Drained), Delivered) == Of(past, Delivered)
    ensures Of(past + Mark(pkts, Drained), Dropped) == Of(past, Dropped)
  {
    hide Of, Mark;
    OfMark(pkts, Drained, Delivered);
    OfMark(pkts, Drained, Dropped);
    OfConcat(past, Mark(pkts, Drained), Delivered);
    OfConcat(past, Mark(pkts, Drained), Dropped);
  }

  lemma DrainKeepsInv(cap: nat, s: Sys, k: nat)
    requires Inv(cap, s) && s.cons.CDrain? && ConsLegal(s, k)
    ensures Inv(cap, ConsStep(s, k))
  {
    hide DistinctBuffers, Of, Pkts, Mark, Counted, Live, Balanced, FreedOnce;
    var s' := ConsStep(s, k);
    if k > 0 {
      PktsMark(s.ring[..k], Drained);
      DrainExits(s.past, s.ring[..k]);
      DrainLeaves(s, s', k);
      LeaveKeepsBalance(s, s', Mark(s.ring[..k], Drained));
      SameCounts(s, s');
    } else {
      NothingInHand(s, s');
      SameCounts(s, s');
      BalanceCarries(s, s');
    }
  }

  lemma BalanceCarries(s: Sys, s': Sys)
    requires Balanced(s) && FreedOnce(s) && Live(s') == Live(s)
    requires s'.taken == s.taken && s'.past == s.past && s'.freed == s.freed
    ensures Balanced(s') && FreedOnce(s')
  {
    hide Live, Pkts;
  }

  lemma LookKeepsInv(cap: nat, s: Sys, k: nat)
    requires Inv(cap, s) && ConsLegal(s, k) && (s.cons.CTop? || s.cons.CChecked? || s.cons.CDone?)
    ensures Inv(cap, ConsStep(s, k))
  {
    hide DistinctBuffers, Of, Pkts, Live;
    NothingInHand(s, ConsStep(s, k));
  }

  lemma ConsKeepsInv(cap: nat, s: Sys, k: nat)
    requires Inv(cap, s) && ConsLegal(s, k)
    ensures Inv(cap, ConsStep(s, k))
  {
    hide Inv;
    match s.cons
    case CFetch => PopKeepsInv(cap, s, k);
    case CSend(_, _, _) =>
      if Trying(s.cons) {
        TryKeepsInv(cap, s, k);
      } else {
        FinishKeepsInv(cap, s);
      }
    case CDrain => DrainKeepsInv(cap, s, k);
    case _ => LookKeepsInv(cap, s, k);
  }

  lemma NextKeepsInv(cap: nat, s: Sys, move: Move, s': Sys)
    requires Inv(cap, s) && Next(cap, s, move, s')
    ensures Inv(cap, s')
  {
    hide DistinctBuffers, Of, Pkts;
    match move
    case ProdMove(burst, k) => ProdKeepsInv(cap, s, burst, k);
    case ConsMove(k) => ConsKeepsInv(cap, s, k);
    case _ =>
      assert Live(s') == Live(s);
  }

  lemma {:induction false} RunIsSafe(cap: nat, states: seq<Sys>, moves: seq<Move>, n: nat)
    requires BURST <= cap && Run(cap, states, moves) && n < |states|
    ensures Inv(cap, states[n])
  {
    if n > 0 {
      hide Inv, Next;
      var j := n - 1;
      RunIsSafe(cap, states, moves, j);
      NextKeepsInv(cap, states[j], moves[j], states[j + 1]);
    }
  }
}
