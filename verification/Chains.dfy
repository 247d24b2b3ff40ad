/**
 Descriptor chains of the transmit queue: the walk that follows the NEXT flags from a head,
 translates every buffer address and reassembles the frame.
 */
module Chains {
  import opened Wrappers
  import opened Words
  import opened Regions

  const MAX_LEN: nat := 10240
  const BUF_LEN: nat := 12288

  datatype Desc = Desc(addr: nat, len: nat, flags: nat, next: nat)

  /** VRING_DESC_F_NEXT, bit 0. */
  predicate HasNext(d: Desc) {
    d.flags % 2 == 1
  }

  /** VRING_DESC_F_WRITE, bit 1. */
  predicate DeviceWritable(d: Desc) {
    d.flags / 2 % 2 == 1
  }

  /** What the device reads of the guest: the region table, the descriptor table, the bytes. */
  datatype Mem = Mem(regions: seq<Region>, desc: seq<Desc>, host: nat -> Byte)

  /** The ways the walk stops the process. */
  datatype Fault = NotMapped | NotReadable | TooLong | Overrun | EmptyFrame | BadIndex

  datatype Outcome = Frame(bytes: seq<Byte>) | Rejected(fault: Fault)

  function Bytes(host: nat -> Byte, va: nat, len: nat): (r: seq<Byte>)
    ensures |r| == len && forall i | 0 <= i < len :: r[i] == host(va + i)
  {
    seq(len, i requires 0 <= i < len => host(va + i))
  }

  /** The 32-bit length test in front of the copy. */
  predicate LengthGuard(len: nat, chunk: nat) {
    (len + chunk) % W32 < MAX_LEN
  }

  /**
   One descriptor of the walk: translate, check the direction, check the length, copy. Overrun
   is a copy the wrapped length test lets through although it does not fit the buffer.
   */
  function Absorb(mem: Mem, i: nat, buf: seq<Byte>): Outcome
    requires i < |mem.desc|
  {
    var d := mem.desc[i];
    match Translate(mem.regions, GuestPhysical, d.addr)
    case None => Rejected(NotMapped)
    case Some(va) =>
      if DeviceWritable(d) then Rejected(NotReadable)
      else if !LengthGuard(|buf|, d.len) then Rejected(TooLong)
      else if |buf| + d.len > BUF_LEN then Rejected(Overrun)
      else Frame(buf + Bytes(mem.host, va, d.len))
  }

  /** The wrapped test means what it says exactly when the sum stays below 2^32. */
  lemma LengthGuardIsExact(len: nat, chunk: nat)
    requires len < MAX_LEN && chunk < W32
    ensures (LengthGuard(len, chunk) <==> len + chunk < MAX_LEN) <==> len + chunk < W32
  {
  }

  /** A copy runs over the buffer exactly when the 32-bit sum wraps to a length that passes the test. */
  lemma OverrunIsWrap(mem: Mem, i: nat, buf: seq<Byte>)
    requires i < |mem.desc| && |buf| < MAX_LEN && mem.desc[i].len < W32
    ensures Absorb(mem, i, buf) == Rejected(Overrun)
            <==> Readable(mem, i) && W32 <= |buf| + mem.desc[i].len < W32 + MAX_LEN
  {
  }

  /** At an input: after 100 bytes, a descriptor of 2^32 - 100 passes the test. */
  lemma TwoDescriptorsOverrun(r: Region)
    requires WellFormed(r) && r.size > 0
    ensures var mem := Mem([r], [Desc(r.gpa, 100, 1, 1), Desc(r.gpa, W32 - 100, 0, 0)], _ => 0);
      IsChain(mem.desc, [0, 1]) && Reassemble(mem, [0, 1], []) == Rejected(Overrun)
  {
    var mem := Mem([r], [Desc(r.gpa, 100, 1, 1), Desc(r.gpa, W32 - 100, 0, 0)], _ => 0);
    assert Readable(mem, 0) && Readable(mem, 1);
    var a := Absorb(mem, 0, []);
    assert a.Frame? && |a.bytes| == 100;
    OverrunIsWrap(mem, 1, a.bytes);
    assert [0, 1][1..] == [1];
  }

  predicate IndicesOf(desc: seq<Desc>, chain: seq<nat>) {
    forall k | 0 <= k < |chain| :: chain[k] < |desc|
  }

  /** The descriptors from a head to the first one without NEXT, in order. */
  predicate IsChain(desc: seq<Desc>, chain: seq<nat>) {
    && chain != [] && IndicesOf(desc, chain)
    && (forall k | 0 <= k < |chain| - 1 :: HasNext(desc[chain[k]]) && desc[chain[k]].next == chain[k + 1])
    && !HasNext(desc[chain[|chain| - 1]])
  }

  /** The walk along a known chain, starting with buf already copied. */
  function Reassemble(mem: Mem, chain: seq<nat>, buf: seq<Byte>): Outcome
    requires IndicesOf(mem.desc, chain)
  {
    if chain == [] then (if buf == [] then Rejected(EmptyFrame) else Frame(buf))
    else
      match Absorb(mem, chain[0], buf)
      case Rejected(f) => Rejected(f)
      case Frame(b) => Reassemble(mem, chain[1..], b)
  }

  // ----- what the walk computes, said without it -----

  predicate Readable(mem: Mem, i: nat)
    requires i < |mem.desc|
  {
    Translate(mem.regions, GuestPhysical, mem.desc[i].addr).Some? && !DeviceWritable(mem.desc[i])
  }

  function TotalLen(desc: seq<Desc>, chain: seq<nat>): nat
    requires IndicesOf(desc, chain)
  {
    if chain == [] then 0 else desc[chain[0]].len + TotalLen(desc, chain[1..])
  }

  function Gather(mem: Mem, chain: seq<nat>): seq<Byte>
    requires IndicesOf(mem.desc, chain)
    requires forall k | 0 <= k < |chain| :: Readable(mem, chain[k])
  {
    if chain == [] then []
    else
      assert Readable(mem, chain[0]);
      Bytes(mem.host, Translate(mem.regions, GuestPhysical, mem.desc[chain[0]].addr).value, mem.desc[chain[0]].len)
      + Gather(mem, chain[1..])
  }

  /**
   A chain is accepted exactly when every buffer is mapped and device-readable and the true
   total length is positive and below MAX_LEN; the frame is then the buffers in chain order.
   */
  lemma {:induction false} ReassembleMeaning(mem: Mem, chain: seq<nat>, buf: seq<Byte>)
    requires IndicesOf(mem.desc, chain) && |buf| < MAX_LEN
    ensures Reassemble(mem, chain, buf).Frame?
            <==> && (forall k | 0 <= k < |chain| :: Readable(mem, chain[k]))
                 && 0 < |buf| + TotalLen(mem.desc, chain) < MAX_LEN
    ensures Reassemble(mem, chain, buf).Frame?
            ==> Reassemble(mem, chain, buf).bytes == buf + Gather(mem, chain)
  {
    if chain == [] {
      assert buf + [] == buf;
    } else {
      var rest := chain[1..];
      assert forall k | 0 <= k < |chain| :: chain[k] == if k == 0 then chain[0] else rest[k - 1];
      var a := Absorb(mem, chain[0], buf);
      if a.Frame? && |a.bytes| < MAX_LEN {
        ReassembleMeaning(mem, rest, a.bytes);
        assert (forall k | 0 <= k < |rest| :: Readable(mem, rest[k]))
            == (forall k | 0 <= k < |chain| :: Readable(mem, chain[k])) by {
          forall k | 0 <= k < |rest| ensures rest[k] == chain[k + 1] {}
        }
        if Reassemble(mem, chain, buf).Frame? {
          var c := Bytes(mem.host, Translate(mem.regions, GuestPhysical, mem.desc[chain[0]].addr).value,
                         mem.desc[chain[0]].len);
          assert buf + c + Gather(mem, rest) == buf + (c + Gather(mem, rest));
        }
      } else {
        assert !a.Frame?;
      }
    }
  }

  /** Bytes of the descriptors before position k. */
  function OffsetOf(desc: seq<Desc>, chain: seq<nat>, k: nat): nat
    requires k <= |chain| && IndicesOf(desc, chain)
  {
    if k == 0 then 0 else OffsetOf(desc, chain, k - 1) + desc[chain[k - 1]].len
  }

  lemma {:induction false} OffsetShift(desc: seq<Desc>, chain: seq<nat>, k: nat)
    requires 0 < k <= |chain| && IndicesOf(desc, chain)
    ensures OffsetOf(desc, chain, k) == desc[chain[0]].len + OffsetOf(desc, chain[1..], k - 1)
  {
    if k > 1 {
      OffsetShift(desc, chain, k - 1);
    }
  }

  /** Byte i of descriptor k's buffer, as guest memory has it, stands at its place in the frame. */
  predicate ByteInPlace(mem: Mem, chain: seq<nat>, frame: seq<Byte>, start: nat, k: nat, i: nat)
    requires IndicesOf(mem.desc, chain) && k < |chain|
  {
    && Translate(mem.regions, GuestPhysical, mem.desc[chain[k]].addr).Some?
    && start + OffsetOf(mem.desc, chain, k) + i < |frame|
    && frame[start + OffsetOf(mem.desc, chain, k) + i]
       == mem.host(Translate(mem.regions, GuestPhysical, mem.desc[chain[k]].addr).value + i)
  }

  lemma {:induction false} ReassembleKeeps(mem: Mem, chain: seq<nat>, buf: seq<Byte>)
    requires IndicesOf(mem.desc, chain) && Reassemble(mem, chain, buf).Frame?
    ensures buf <= Reassemble(mem, chain, buf).bytes
  {
    if chain != [] {
      ReassembleKeeps(mem, chain[1..], Absorb(mem, chain[0], buf).bytes);
    }
  }

  /** An accepted frame holds every byte of every buffer of the chain, in chain order. */
  lemma {:induction false} FrameBytes(mem: Mem, chain: seq<nat>, buf: seq<Byte>, k: nat, i: nat)
    requires IndicesOf(mem.desc, chain) && Reassemble(mem, chain, buf).Frame?
    requires k < |chain| && i < mem.desc[chain[k]].len
    ensures ByteInPlace(mem, chain, Reassemble(mem, chain, buf).bytes, |buf|, k, i)
  {
    hide Translate;
    var b := Absorb(mem, chain[0], buf).bytes;
    assert |b| == |buf| + mem.desc[chain[0]].len;
    if k == 0 {
      ReassembleKeeps(mem, chain[1..], b);
    } else {
      FrameBytes(mem, chain[1..], b, k - 1, i);
      OffsetShift(mem.desc, chain, k);
      assert chain[1..][k - 1] == chain[k];
    }
  }

  /** What the descriptor at i does to the walk when len bytes are copied already. */
  predicate FaultAt(mem: Mem, i: nat, len: nat, f: Fault)
    requires i < |mem.desc|
  {
    var va, sum := Translate(mem.regions, GuestPhysical, mem.desc[i].addr), len + mem.desc[i].len;
    match f
    case NotMapped => va.None?
    case NotReadable => va.Some? && DeviceWritable(mem.desc[i])
    case TooLong => Readable(mem, i) && sum % 0x1_0000_0000 >= 10240
    case Overrun => Readable(mem, i) && sum % 0x1_0000_0000 < 10240 && sum > 12288
    case _ => false
  }

  /** The first descriptor that does not pass decides the fault. */
  lemma {:induction false} FirstFaultDecides(mem: Mem, chain: seq<nat>, buf: seq<Byte>, k: nat, f: Fault)
    requires IndicesOf(mem.desc, chain) && k < |chain|
    requires forall j | 0 <= j < k :: Readable(mem, chain[j])
    requires |buf| + OffsetOf(mem.desc, chain, k) < 10240
    requires FaultAt(mem, chain[k], |buf| + OffsetOf(mem.desc, chain, k), f)
    ensures Reassemble(mem, chain, buf) == Rejected(f)
    decreases k
  {
    hide Translate;
    if k > 0 {
      OffsetShift(mem.desc, chain, k);
      assert Readable(mem, chain[0]);
      var b := Absorb(mem, chain[0], buf).bytes;
      assert forall j | 0 <= j < k - 1 :: chain[1..][j] == chain[j + 1];
      FirstFaultDecides(mem, chain[1..], b, k - 1, f);
    }
  }

  /** A chain that ends visits no descriptor twice. */
  lemma ChainIsAcyclic(desc: seq<Desc>, chain: seq<nat>, a: nat, b: nat)
    requires IsChain(desc, chain) && a < b < |chain|
    ensures chain[a] != chain[b]
    decreases |chain| - b
  {
    if b + 1 < |chain| {
      ChainIsAcyclic(desc, chain, a + 1, b + 1);
    }
  }

  /** The walk reads only the chain's descriptors and their buffers. */
  lemma {:induction false} ReassembleFrame(mem: Mem, mem': Mem, chain: seq<nat>, buf: seq<Byte>)
    requires IndicesOf(mem.desc, chain) && IndicesOf(mem'.desc, chain)
    requires forall k | 0 <= k < |chain| :: SameBuffer(mem, mem', chain[k])
    ensures Reassemble(mem, chain, buf) == Reassemble(mem', chain, buf)
  {
    if chain != [] {
      assert SameBuffer(mem, mem', chain[0]);
      assert Absorb(mem, chain[0], buf) == Absorb(mem', chain[0], buf);
      var a := Absorb(mem, chain[0], buf);
      if a.Frame? {
        assert forall k | 0 <= k < |chain[1..]| :: chain[1..][k] == chain[k + 1];
        ReassembleFrame(mem, mem', chain[1..], a.bytes);
      }
    }
  }

  /** Descriptor i and the bytes it points at are the same in both memories. */
  predicate SameBuffer(mem: Mem, mem': Mem, i: nat) {
    && i < |mem.desc| && i < |mem'.desc|
    && mem.desc[i] == mem'.desc[i]
    && mem.regions == mem'.regions
    && (Translate(mem.regions, GuestPhysical, mem.desc[i].addr).Some? ==>
          var va := Translate(mem.regions, GuestPhysical, mem.desc[i].addr).value;
          Bytes(mem.host, va, mem.desc[i].len) == Bytes(mem'.host, va, mem.desc[i].len))
  }

  // ----- the walk as the source runs it, on a table that may be cyclic -----

  datatype Walk = At(i: nat, buf: seq<Byte>) | Done(outcome: Outcome)

  function WalkStep(mem: Mem, w: Walk): Walk {
    match w
    case Done(_) => w
    case At(i, buf) =>
      if i >= |mem.desc| then Done(Rejected(BadIndex))
      else
        match Absorb(mem, i, buf)
        case Rejected(f) => Done(Rejected(f))
        case Frame(b) =>
          if HasNext(mem.desc[i]) then At(mem.desc[i].next, b)
          else Done(if b == [] then Rejected(EmptyFrame) else Frame(b))
  }

  function WalkN(mem: Mem, w: Walk, n: nat): Walk
    decreases n
  {
    if n == 0 then w else WalkN(mem, WalkStep(mem, w), n - 1)
  }

  lemma {:induction false} WalkNDone(mem: Mem, w: Walk, n: nat)
    requires w.Done?
    ensures WalkN(mem, w, n) == w
  {
    if n > 0 {
      WalkNDone(mem, w, n - 1);
    }
  }

  lemma {:induction false} WalkNPlus(mem: Mem, w: Walk, a: nat, b: nat)
    ensures WalkN(mem, w, a + b) == WalkN(mem, WalkN(mem, w, a), b)
    decreases a
  {
    if a > 0 {
      WalkNPlus(mem, WalkStep(mem, w), a - 1, b);
    }
  }

  lemma WalkNLast(mem: Mem, w: Walk, n: nat)
    ensures WalkN(mem, w, n + 1) == WalkStep(mem, WalkN(mem, w, n))
  {
    WalkNPlus(mem, w, n, 1);
  }

  /** On an ending chain the walk takes one step per descriptor and computes Reassemble. */
  lemma {:induction false} WalkOfChain(mem: Mem, chain: seq<nat>, buf: seq<Byte>)
    requires IsChain(mem.desc, chain)
    ensures WalkN(mem, At(chain[0], buf), |chain|) == Done(Reassemble(mem, chain, buf))
  {
    var w := WalkStep(mem, At(chain[0], buf));
    var rest := chain[1..];
    if w.Done? {
      WalkNDone(mem, w, |chain| - 1);
      var a := Absorb(mem, chain[0], buf);
      if a.Frame? {
        assert rest == [];
        assert Reassemble(mem, rest, a.bytes) == w.outcome;
      }
    } else {
      assert rest != [] && rest[0] == chain[1];
      assert forall k | 0 <= k < |rest| :: rest[k] == chain[k + 1];
      assert IsChain(mem.desc, rest);
      WalkOfChain(mem, rest, w.buf);
    }
  }

  /** Cyclic or not, buffers of at least one byte end the walk within MAX_LEN steps. */
  lemma {:induction false} PositiveLengthsEnd(mem: Mem, i: nat, buf: seq<Byte>)
    requires Positive(mem.desc) && |buf| < MAX_LEN
    ensures WalkN(mem, At(i, buf), MAX_LEN - |buf|).Done?
    decreases MAX_LEN - |buf|
  {
    var w := WalkStep(mem, At(i, buf));
    if w.Done? {
      WalkNDone(mem, w, MAX_LEN - |buf| - 1);
    } else {
      assert mem.desc[i].len >= 1;
      if |w.buf| < MAX_LEN {
        PositiveLengthsEnd(mem, w.i, w.buf);
        var n := MAX_LEN - |w.buf|;
        var gap := MAX_LEN - |buf| - 1 - n;
        WalkNPlus(mem, w, n, gap);
        WalkNDone(mem, WalkN(mem, w, n), gap);
      } else {
        LengthGuardIsExact(|buf|, mem.desc[i].len);
        assert false;
      }
    }
  }

  /** Without that, the walk need not end: a zero-length descriptor that names itself. */
  lemma {:induction false} ZeroLengthLoopNeverEnds(r: Region, n: nat)
    requires WellFormed(r) && r.size > 0
    ensures WalkN(Mem([r], [Desc(r.gpa, 0, 1, 0)], _ => 0), At(0, []), n) == At(0, [])
  {
    var mem := Mem([r], [Desc(r.gpa, 0, 1, 0)], _ => 0);
    assert WalkStep(mem, At(0, [])) == At(0, []);
    if n > 0 {
      ZeroLengthLoopNeverEnds(r, n - 1);
    }
  }

  /** One descriptor of the reassembly loop, copying into the thread's fixed buffer. */
  method CopyChunk(mem: Mem, i: nat, buf: array<Byte>, len: nat) returns (fault: Option<Fault>, len': nat)
    requires i < |mem.desc| && buf.Length == BUF_LEN && len < MAX_LEN
    modifies buf
    ensures fault.None? ==> len' == len + mem.desc[i].len < MAX_LEN
    ensures fault.None? ==> Absorb(mem, i, old(buf[..len])) == Frame(buf[..len'])
    ensures fault.Some? ==> Absorb(mem, i, old(buf[..len])) == Rejected(fault.value)
    ensures fault.None? ==>
              var va := Translate(mem.regions, GuestPhysical, mem.desc[i].addr);
              va.Some? && forall j | len <= j < len' :: buf[j] == mem.host(va.value + (j - len))
    ensures fault.None? ==> buf[..len] == old(buf[..len]) && buf[len'..] == old(buf[len'..])
    ensures fault.Some? ==> FaultAt(mem, i, len, fault.value) && buf[..] == old(buf[..])
  {
    hide Translate;
    fault, len' := None, len;
    var d := mem.desc[i];
    var va := Translate(mem.regions, GuestPhysical, d.addr);
    if va.None? {
      fault := Some(NotMapped);
    } else if DeviceWritable(d) {
      fault := Some(NotReadable);
    } else if !LengthGuard(len, d.len) {
      fault := Some(TooLong);
    } else if len + d.len > BUF_LEN {
      fault := Some(Overrun);
    } else {
      forall k | 0 <= k < d.len {
        buf[len + k] := mem.host(va.value + k);
      }
      len' := len + d.len;
      assert buf[..len'] == old(buf[..len]) + Bytes(mem.host, va.value, d.len);
    }
  }

  lemma WalkedChain(mem: Mem, chain: seq<nat>, n: nat, frame: seq<Byte>)
    requires IsChain(mem.desc, chain) && WalkN(mem, At(chain[0], []), n) == Done(Frame(frame))
    ensures forall k, i | 0 <= k < |chain| && 0 <= i < mem.desc[chain[k]].len :: ByteInPlace(mem, chain, frame, 0, k, i)
  {
    hide Reassemble, ByteInPlace, WalkN;
    var start := At(chain[0], []);
    WalkOfChain(mem, chain, []);
    if n <= |chain| {
      WalkNPlus(mem, start, n, |chain| - n);
      WalkNDone(mem, WalkN(mem, start, n), |chain| - n);
    } else {
      WalkNPlus(mem, start, |chain|, n - |chain|);
      WalkNDone(mem, WalkN(mem, start, |chain|), n - |chain|);
    }
    forall k, i | 0 <= k < |chain| && 0 <= i < mem.desc[chain[k]].len
      ensures ByteInPlace(mem, chain, frame, 0, k, i)
    {
      FrameBytes(mem, chain, [], k, i);
    }
  }

  ghost predicate Positive(desc: seq<Desc>) {
    forall d | d in desc :: 1 <= d.len < W32
  }

  /**
   The reassembly loop of the transmit thread. It ends on every chain that ends, and on every
   table of positive lengths; the buffer then holds what the walk computes.
   */
  method GatherChain(mem: Mem, head: nat, buf: array<Byte>, ghost chain: seq<nat>)
    returns (fault: Option<Fault>, len: nat)
    requires buf.Length == BUF_LEN
    requires (IsChain(mem.desc, chain) && chain[0] == head) || Positive(mem.desc)
    modifies buf
    ensures fault.None? ==> 0 < len < MAX_LEN
    ensures exists n :: WalkN(mem, At(head, []), n)
                        == Done(if fault.None? then Frame(buf[..len]) else Rejected(fault.value))
    ensures fault.None? && IsChain(mem.desc, chain) && chain[0] == head ==>
              forall k, i | 0 <= k < |chain| && 0 <= i < mem.desc[chain[k]].len ::
                ByteInPlace(mem, chain, buf[..len], 0, k, i)
  {
    hide Absorb, ByteInPlace, FaultAt;
    var i: nat := head;
    len, fault := 0, None;
    ghost var n: nat := 0;
    ghost var start := At(head, []);
    while true
      invariant len < MAX_LEN
      invariant WalkN(mem, start, n) == At(i, buf[..len])
      invariant !Positive(mem.desc) ==> n < |chain| && i == chain[n]
      decreases if Positive(mem.desc) then MAX_LEN - len else |chain| - n
    {
      WalkNLast(mem, start, n);
      if i >= |mem.desc| {
        fault := Some(BadIndex);
        return;
      }
      fault, len := CopyChunk(mem, i, buf, len);
      if fault.Some? {
        return;
      }
      n := n + 1;
      if HasNext(mem.desc[i]) {
        i := mem.desc[i].next;
      } else {
        if len == 0 {
          fault := Some(EmptyFrame);
        } else if IsChain(mem.desc, chain) && chain[0] == head {
          WalkedChain(mem, chain, n, buf[..len]);
        }
        return;
      }
    }
  }
}
