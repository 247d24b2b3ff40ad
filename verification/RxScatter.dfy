/**
 The receive side: one frame and its metadata are scattered over three mergeable buffers
 (VirtIO 1.1, section 5.1.6.4) and handed to the guest through the used ring.
 */
module RxScatter {
  import opened Wrappers
  import opened Words
  import opened Regions
  import opened Chains
  import opened TxRing

  const META_LEN: nat := 48
  const FRAME_LEN: nat := 10240
  const NBUFS: nat := 3

  /** A collected receive buffer. */
  datatype BufVec = BufVec(addr: nat, len: nat, descIdx: nat)

  function Min(a: nat, b: nat): nat {
    if a < b then a else b
  }

  /** Bytes of the frame the first k buffers have room for; the metadata takes 48 of the first. */
  function Capacity(bufs: seq<BufVec>, k: nat): nat
    requires k <= |bufs| && (bufs != [] ==> bufs[0].len >= META_LEN)
  {
    if k == 0 then 0
    else Capacity(bufs, k - 1) + bufs[k - 1].len - if k == 1 then META_LEN else 0
  }

  /** Bytes of the frame that end up in the first k buffers. */
  function Written(bufs: seq<BufVec>, k: nat): (r: nat)
    requires k <= |bufs| && (bufs != [] ==> bufs[0].len >= META_LEN)
    ensures r <= FRAME_LEN
  {
    Min(FRAME_LEN, Capacity(bufs, k))
  }

  /** What buffer k has to hold. */
  function Piece(meta: seq<Byte>, frame: seq<Byte>, bufs: seq<BufVec>, k: nat): (r: seq<Byte>)
    requires k < |bufs| && bufs[0].len >= META_LEN && |frame| == FRAME_LEN
    ensures |meta| == META_LEN ==> |r| <= bufs[k].len
  {
    assert Capacity(bufs, k + 1) >= Capacity(bufs, k);
    (if k == 0 then meta else []) + frame[Written(bufs, k)..Written(bufs, k + 1)]
  }

  /** The len bytes at va. */
  function Slice(host: seq<Byte>, va: nat, len: nat): seq<Byte> {
    if va + len <= |host| then host[va..va + len] else []
  }

  predicate Holds(host: seq<Byte>, va: nat, len: nat, piece: seq<Byte>) {
    va + len <= |host| && len == |piece| && Slice(host, va, len) == piece
  }

  /** The guest's side: the used-length prefixes of the first k buffers, one after another. */
  function Gathered(host: seq<Byte>, vas: seq<nat>, lens: seq<nat>, k: nat): seq<Byte>
    requires k <= |vas| && k <= |lens|
  {
    if k == 0 then [] else Gathered(host, vas, lens, k - 1) + Slice(host, vas[k - 1], lens[k - 1])
  }

  lemma PieceExtends(meta: seq<Byte>, frame: seq<Byte>, bufs: seq<BufVec>, k: nat)
    requires k < |bufs| && bufs[0].len >= META_LEN && |frame| == FRAME_LEN
    ensures k == 0 ==> Piece(meta, frame, bufs, k) == meta + frame[..Written(bufs, 1)]
    ensures k > 0 ==>
              meta + frame[..Written(bufs, k)] + Piece(meta, frame, bufs, k) == meta + frame[..Written(bufs, k + 1)]
  {
    var v, w := Written(bufs, k), Written(bufs, k + 1);
    assert Capacity(bufs, k + 1) >= Capacity(bufs, k);
    assert frame[..v] + frame[v..w] == frame[..w];
    assert meta + frame[..v] + frame[v..w] == meta + (frame[..v] + frame[v..w]);
    if k > 0 {
      assert [] + frame[v..w] == frame[v..w];
    }
  }

  /**
   Gathering undoes scattering: the guest reads the metadata and then the first
   min(10240, capacity) bytes of the frame.
   */
  lemma {:induction false} GatherUndoesScatter(host: seq<Byte>, vas: seq<nat>, lens: seq<nat>,
                                               meta: seq<Byte>, frame: seq<Byte>, bufs: seq<BufVec>, k: nat)
    requires 0 < k <= |vas| == |lens| == |bufs| && bufs[0].len >= META_LEN && |frame| == FRAME_LEN
    requires forall j | 0 <= j < k :: Holds(host, vas[j], lens[j], Piece(meta, frame, bufs, j))
    ensures Gathered(host, vas, lens, k) == meta + frame[..Written(bufs, k)]
  {
    hide Piece, Written, Slice;
    PieceExtends(meta, frame, bufs, k - 1);
    assert Slice(host, vas[k - 1], lens[k - 1]) == Piece(meta, frame, bufs, k - 1);
    if k == 1 {
      assert Gathered(host, vas, lens, 0) == [];
    } else {
      GatherUndoesScatter(host, vas, lens, meta, frame, bufs, k - 1);
    }
  }

  /** The copy length of buffer k, as computed in 32 bits. */
  function ChunkToWrite(remaining: nat, bufLen: nat, first: bool): nat {
    Min(remaining, (bufLen - if first then META_LEN else 0) % W32)
  }

  /** In a buffer with room for the metadata, the 32-bit length is the buffer's share of the frame. */
  lemma ChunkIsShare(bufs: seq<BufVec>, k: nat)
    requires k < |bufs| && bufs[0].len >= META_LEN && bufs[k].len < W32
    ensures ChunkToWrite(FRAME_LEN - Written(bufs, k), bufs[k].len, k == 0) == Written(bufs, k + 1) - Written(bufs, k)
  {
  }

  /** The first copy stays inside its buffer exactly when the buffer has room for the metadata. */
  lemma FirstChunkFitsExactly(bufLen: nat)
    requires bufLen < W32
    ensures META_LEN + ChunkToWrite(FRAME_LEN, bufLen, true) <= bufLen <==> META_LEN <= bufLen
  {
  }

  predicate Free(bufs: seq<BufVec>, vas: seq<nat>, hostLen: nat)
    requires |bufs| == |vas|
  {
    && (forall k | 0 <= k < |bufs| :: vas[k] + bufs[k].len <= hostLen && bufs[k].len < W32)
    && (forall j, k | 0 <= j < k < |bufs| :: vas[j] + bufs[j].len <= vas[k] || vas[k] + bufs[k].len <= vas[j])
  }

  /** memcpy into process memory. */
  method CopyIn(host: array<Byte>, va: nat, data: seq<Byte>)
    requires va + |data| <= host.Length
    modifies host
    ensures host[..] == old(host[..va]) + data + old(host[va + |data|..])
  {
    forall k | 0 <= k < |data| {
      host[va + k] := data[k];
    }
  }

  lemma OverwriteKeepsApart(before: seq<Byte>, after: seq<Byte>, va: nat, data: seq<Byte>,
                            other: nat, len: nat, piece: seq<Byte>)
    requires va + |data| <= |before| && after == before[..va] + data + before[va + |data|..]
    requires Holds(before, other, len, piece) && (other + len <= va || va + |data| <= other)
    ensures Holds(after, other, len, piece)
  {
    forall k | 0 <= k < len
      ensures after[other + k] == piece[k]
    {
      assert before[other..other + len][k] == piece[k];
    }
  }

  /** The copies into buffer k, and its used length. */
  method ScatterOne(host: array<Byte>, bufs: seq<BufVec>, vas: seq<nat>, meta: seq<Byte>, frame: seq<Byte>,
                    k: nat, written: nat, remaining: nat) returns (chunk: nat, used: nat)
    requires k < |bufs| == |vas| && bufs[0].len >= META_LEN && Free(bufs, vas, host.Length)
    requires |meta| == META_LEN && |frame| == FRAME_LEN
    requires written == Written(bufs, k) && written + remaining == FRAME_LEN
    modifies host
    ensures written + chunk == Written(bufs, k + 1)
    ensures used <= bufs[k].len && Holds(host[..], vas[k], used, Piece(meta, frame, bufs, k))
    ensures host[..] == old(host[..vas[k]]) + Piece(meta, frame, bufs, k) + old(host[vas[k] + used..])
  {
    chunk := ChunkToWrite(remaining, bufs[k].len, k == 0);
    ChunkIsShare(bufs, k);
    var piece := (if k == 0 then meta else []) + frame[written..written + chunk];
    assert piece == Piece(meta, frame, bufs, k);
    used := |piece|;
    CopyIn(host, vas[k], piece);
    assert host[..][vas[k]..vas[k] + used] == piece;
  }

  /** The first n buffers hold their pieces, lens being their used lengths. */
  ghost predicate Filled(host: seq<Byte>, bufs: seq<BufVec>, vas: seq<nat>, meta: seq<Byte>, frame: seq<Byte>,
                         lens: seq<nat>, n: nat)
    requires n <= |bufs| == |vas| && n <= |lens| && (bufs != [] ==> bufs[0].len >= META_LEN) && |frame| == FRAME_LEN
  {
    forall k | 0 <= k < n :: lens[k] <= bufs[k].len && Holds(host, vas[k], lens[k], Piece(meta, frame, bufs, k))
  }

  /** Nothing changed outside the len bytes at va. */
  ghost predicate SameOutside(before: seq<Byte>, after: seq<Byte>, va: nat, len: nat) {
    |after| == |before| && forall j | 0 <= j < |before| && (j < va || va + len <= j) :: after[j] == before[j]
  }

  lemma HoldsFits(host: seq<Byte>, va: nat, len: nat, piece: seq<Byte>)
    requires Holds(host, va, len, piece)
    ensures len == |piece| && va + len <= |host|
  {
  }

  lemma OverwriteIsInside(before: seq<Byte>, after: seq<Byte>, va: nat, data: seq<Byte>, len: nat)
    requires va + |data| <= |before| && |data| <= len && after == before[..va] + data + before[va + |data|..]
    ensures SameOutside(before, after, va, len)
  {
  }

  /** The byte belongs to none of the first n buffers. */
  ghost predicate InNone(bufs: seq<BufVec>, vas: seq<nat>, n: nat, j: nat)
    requires n <= |bufs| && n <= |vas|
  {
    forall k | 0 <= k < n :: j < vas[k] || vas[k] + bufs[k].len <= j
  }

  /** Nothing changed outside the first n buffers. */
  ghost predicate OnlyBuffers(before: seq<Byte>, after: seq<Byte>, bufs: seq<BufVec>, vas: seq<nat>, n: nat)
    requires n <= |bufs| && n <= |vas|
  {
    |after| == |before| && forall j | 0 <= j < |before| && InNone(bufs, vas, n, j) :: after[j] == before[j]
  }

  lemma OnlyBuffersGrows(before: seq<Byte>, mid: seq<Byte>, after: seq<Byte>, bufs: seq<BufVec>, vas: seq<nat>, n: nat)
    requires n < |bufs| && n < |vas| && OnlyBuffers(before, mid, bufs, vas, n)
    requires SameOutside(mid, after, vas[n], bufs[n].len)
    ensures OnlyBuffers(before, after, bufs, vas, n + 1)
  {
    forall j | 0 <= j < |before| && InNone(bufs, vas, n + 1, j)
      ensures after[j] == before[j]
    {
      assert InNone(bufs, vas, n, j);
    }
  }

  /** Fills the next buffer and leaves the earlier ones alone. */
  method FillNext(host: array<Byte>, bufs: seq<BufVec>, vas: seq<nat>, meta: seq<Byte>, frame: seq<Byte>,
                  ghost lens: seq<nat>, k: nat, written: nat, remaining: nat) returns (chunk: nat, used: nat)
    requires k < |bufs| == |vas| && bufs[0].len >= META_LEN && Free(bufs, vas, host.Length)
    requires |meta| == META_LEN && |frame| == FRAME_LEN
    requires written == Written(bufs, k) && written + remaining == FRAME_LEN
    requires |lens| == k && Filled(host[..], bufs, vas, meta, frame, lens, k)
    modifies host
    ensures written + chunk == Written(bufs, k + 1)
    ensures Filled(host[..], bufs, vas, meta, frame, lens + [used], k + 1)
    ensures SameOutside(old(host[..]), host[..], vas[k], bufs[k].len)
  {
    hide Piece, Holds, Written;
    ghost var before := host[..];
    chunk, used := ScatterOne(host, bufs, vas, meta, frame, k, written, remaining);
    HoldsFits(host[..], vas[k], used, Piece(meta, frame, bufs, k));
    OverwriteIsInside(before, host[..], vas[k], Piece(meta, frame, bufs, k), bufs[k].len);
    forall j | 0 <= j < k
      ensures Holds(host[..], vas[j], lens[j], Piece(meta, frame, bufs, j))
    {
      OverwriteKeepsApart(before, host[..], vas[k], Piece(meta, frame, bufs, k),
                          vas[j], lens[j], Piece(meta, frame, bufs, j));
    }
  }

  // ----- collecting the buffers -----

  /**
   The collection loop: n more buffers, the next one at descriptor i, the available ring read up
   to slot a. None is a descriptor the device may not write (or an index outside the table),
   where the source's assertion on the count fails.
   */
  function CollectFrom(desc: seq<Desc>, ring: seq<nat>, i: nat, a: nat, n: nat): Option<seq<BufVec>>
    requires ring != []
    decreases n
  {
    if n == 0 then Some([])
    else if i >= |desc| || !DeviceWritable(desc[i]) then None
    else
      var rest := if HasNext(desc[i]) then CollectFrom(desc, ring, desc[i].next, a, n - 1)
                  else CollectFrom(desc, ring, ring[(a + 1) % |ring|], a + 1, n - 1);
      Prepend([BufVec(desc[i].addr, desc[i].len, i)], rest)
  }

  /** A buffer of its own: writable, not chained. */
  predicate Single(desc: seq<Desc>, i: nat) {
    i < |desc| && DeviceWritable(desc[i]) && !HasNext(desc[i])
  }

  /** The n heads from available slot a on are unchained writable descriptors. */
  predicate Singles(desc: seq<Desc>, ring: seq<nat>, a: nat, n: nat)
    requires ring != []
    decreases n
  {
    n == 0 || (Single(desc, ring[a % |ring|]) && Singles(desc, ring, a + 1, n - 1))
  }

  /** The buffers of those heads. */
  function BuffersOf(desc: seq<Desc>, ring: seq<nat>, a: nat, n: nat): (r: seq<BufVec>)
    requires ring != [] && Singles(desc, ring, a, n)
    ensures |r| == n
    decreases n
  {
    if n == 0 then []
    else
      var i := ring[a % |ring|];
      [BufVec(desc[i].addr, desc[i].len, i)] + BuffersOf(desc, ring, a + 1, n - 1)
  }

  /** When the next n heads are unchained writable descriptors, the loop collects exactly those. */
  lemma {:induction false} CollectsHeads(desc: seq<Desc>, ring: seq<nat>, a: nat, n: nat)
    requires ring != [] && Singles(desc, ring, a, n)
    ensures CollectFrom(desc, ring, ring[a % |ring|], a, n) == Some(BuffersOf(desc, ring, a, n))
    decreases n
  {
    if n > 0 {
      CollectsHeads(desc, ring, a + 1, n - 1);
    }
  }

  /** The buffer of descriptor i. */
  predicate Describes(desc: seq<Desc>, b: BufVec, i: nat) {
    i < |desc| && b.descIdx == i && b.addr == desc[i].addr && b.len == desc[i].len
  }

  /** Chains that have ended within the first k buffers. */
  function Ended(desc: seq<Desc>, bufs: seq<BufVec>, k: nat): nat
    requires k <= |bufs| && forall j | 0 <= j < k :: bufs[j].descIdx < |desc|
  {
    if k == 0 then 0 else Ended(desc, bufs, k - 1) + if HasNext(desc[bufs[k - 1].descIdx]) then 0 else 1
  }

  lemma {:induction false} EndedShift(desc: seq<Desc>, b: BufVec, rest: seq<BufVec>, k: nat)
    requires k <= |rest| && b.descIdx < |desc| && forall j | 0 <= j < k :: rest[j].descIdx < |desc|
    requires forall j | 0 <= j < k + 1 :: ([b] + rest)[j].descIdx < |desc|
    ensures Ended(desc, [b] + rest, k + 1) == Ended(desc, rest, k) + if HasNext(desc[b.descIdx]) then 0 else 1
  {
    if k > 0 {
      EndedShift(desc, b, rest, k - 1);
    }
  }

  /**
   What the loop collects, chained or not: writable buffers as the table describes them, each
   followed by the next of its chain, or by the next available head where a chain ends.
   */
  lemma {:induction false} CollectMeaning(desc: seq<Desc>, ring: seq<nat>, i: nat, a: nat, n: nat, k: nat)
    requires ring != [] && CollectFrom(desc, ring, i, a, n).Some? && k < n
    ensures var bufs := CollectFrom(desc, ring, i, a, n).value;
      && |bufs| == n && bufs[0].descIdx == i
      && (forall j | 0 <= j < n :: Describes(desc, bufs[j], bufs[j].descIdx) && DeviceWritable(desc[bufs[j].descIdx]))
      && (k + 1 < n ==>
            bufs[k + 1].descIdx == if HasNext(desc[bufs[k].descIdx]) then desc[bufs[k].descIdx].next
                                   else ring[(a + Ended(desc, bufs, k + 1)) % |ring|])
    decreases n
  {
    if n > 1 {
      var more := HasNext(desc[i]);
      var i', a' := if more then desc[i].next else ring[(a + 1) % |ring|], if more then a else a + 1;
      CollectMeaning(desc, ring, i', a', n - 1, if k > 0 then k - 1 else 0);
      var rest := CollectFrom(desc, ring, i', a', n - 1).value;
      var b := BufVec(desc[i].addr, desc[i].len, i);
      assert CollectFrom(desc, ring, i, a, n).value == [b] + rest;
      hide CollectFrom;
      if k + 1 < n {
        EndedShift(desc, b, rest, k);
        assert k == 0 ==> Ended(desc, rest, 0) == 0;
      }
    }
  }

  /** The k-th buffer comes from the k-th available slot. */
  lemma {:induction false} BufferComesFrom(desc: seq<Desc>, ring: seq<nat>, a: nat, n: nat, k: nat)
    requires ring != [] && Singles(desc, ring, a, n) && k < n
    ensures Describes(desc, BuffersOf(desc, ring, a, n)[k], ring[(a + k) % |ring|])
    decreases n
  {
    if k > 0 {
      BufferComesFrom(desc, ring, a + 1, n - 1, k - 1);
      assert BuffersOf(desc, ring, a, n)[k] == BuffersOf(desc, ring, a + 1, n - 1)[k - 1];
    }
  }

  lemma BuffersAreHeads(size: nat, desc: seq<Desc>, ring: seq<nat>, lastAvail: nat, n: nat)
    requires |ring| == size > 0 && Singles(desc, ring, lastAvail % size, n)
    ensures forall k | 0 <= k < n ::
              Describes(desc, BuffersOf(desc, ring, lastAvail % size, n)[k], ring[BatchSlot(size, lastAvail, k)])
  {
    hide Singles, BuffersOf;
    forall k | 0 <= k < n
      ensures Describes(desc, BuffersOf(desc, ring, lastAvail % size, n)[k], ring[BatchSlot(size, lastAvail, k)])
    {
      BufferComesFrom(desc, ring, lastAvail % size, n, k);
      ModPlus(lastAvail, k, size);
    }
  }

  /** The guest has made offered available so far, and the slots past the first taken show it. */
  ghost predicate Shows(size: nat, ring: seq<nat>, offered: seq<nat>, taken: nat)
    requires |ring| == size > 0
  {
    && taken <= |offered| <= taken + size
    && forall n | taken <= n < |offered| :: ring[Slot(size, n)] == offered[n]
  }

  /** The slot was filled for an entry that has not been taken yet. */
  ghost predicate FilledSince(size: nat, exposed: nat, taken: nat, slot: nat)
    requires size > 0
  {
    exists n: nat :: taken <= n < exposed && Slot(size, n) == slot
  }

  /** Of the next size slots, exactly the available ones were filled since they were last taken. */
  lemma FilledExactly(size: nat, exposed: nat, taken: nat, k: nat)
    requires k < size && taken <= exposed <= taken + size
    ensures FilledSince(size, exposed, taken, Slot(size, taken + k)) <==> taken + k < exposed
  {
    if n: nat :| taken <= n < exposed && Slot(size, n) == Slot(size, taken + k) {
      if n < taken + k {
        SlotsDiffer(size, n, taken + k);
      } else if taken + k < n {
        SlotsDiffer(size, taken + k, n);
      }
    }
  }

  /**
   The loop tests for one available head and takes three. Buffer k comes from a slot filled since it
   was last taken exactly when it is among the available ones, and is then the entry offered; the
   available index is not overtaken exactly when there are three.
   */
  lemma ThreeHeadsExactly(size: nat, desc: seq<Desc>, ring: seq<nat>, offered: seq<nat>, taken: nat)
    requires RingSize(size) && NBUFS <= size == |ring| && Shows(size, ring, offered, taken)
    requires Singles(desc, ring, Wrap16(taken) % size, NBUFS)
    ensures var availIdx, lastAvail := Wrap16(|offered|), Wrap16(taken);
      var there, bufs := Span(lastAvail, availIdx), BuffersOf(desc, ring, lastAvail % size, NBUFS);
      && (forall k | 0 <= k < NBUFS ::
            && Describes(desc, bufs[k], ring[BatchSlot(size, lastAvail, k)])
            && (FilledSince(size, |offered|, taken, BatchSlot(size, lastAvail, k)) <==> k < there)
            && (k < there ==> taken + k < |offered| && bufs[k].descIdx == offered[taken + k]))
      && (Span(Wrap16(lastAvail + NBUFS), availIdx) <= size <==> NBUFS <= there)
  {
    SpanIsExact(|offered|, taken, NBUFS);
    BuffersAreHeads(size, desc, ring, Wrap16(taken), NBUFS);
    hide Wrap16, Span, FilledSince, Slot, BatchSlot, Singles, BuffersOf, Shows;
    forall k | 0 <= k < NBUFS
      ensures FilledSince(size, |offered|, taken, BatchSlot(size, Wrap16(taken), k)) <==> taken + k < |offered|
      ensures taken + k < |offered| ==> ring[BatchSlot(size, Wrap16(taken), k)] == offered[taken + k]
    {
      SlotShows(size, ring, offered, taken, k);
    }
  }

  lemma SlotShows(size: nat, ring: seq<nat>, offered: seq<nat>, taken: nat, k: nat)
    requires RingSize(size) && k < size == |ring| && Shows(size, ring, offered, taken)
    ensures FilledSince(size, |offered|, taken, BatchSlot(size, Wrap16(taken), k)) <==> taken + k < |offered|
    ensures taken + k < |offered| ==> ring[BatchSlot(size, Wrap16(taken), k)] == offered[taken + k]
  {
    SlotOffset(size, taken, k);
    FilledExactly(size, |offered|, taken, k);
    hide FilledSince, Wrap16, Slot, RingSize;
  }

  lemma SpanIsExact(exposed: nat, taken: nat, n: nat)
    requires taken <= exposed <= taken + 0x8000 && n < 0x8000
    ensures Span(Wrap16(taken), Wrap16(exposed)) == exposed - taken
    ensures Span(Wrap16(Wrap16(taken) + n), Wrap16(exposed))
            == if taken + n <= exposed then exposed - taken - n else exposed - taken - n + W16
  {
    if taken + n <= exposed {
      WrapOffset(taken, n);
      SpanOfCounters(taken + n, exposed);
    } else {
      WrapOffset(taken, n);
      SpanBack(exposed, taken + n);
    }
    SpanOfCounters(taken, exposed);
  }

  /** Slot of the k-th buffer returned after start. */
  function BatchSlot(size: nat, start: nat, k: nat): (r: nat)
    requires size > 0
    ensures r < size
  {
    Slot(size, start + k)
  }

  lemma BatchSlotsDiffer(size: nat, start: nat, cnt: nat)
    requires 0 < size && cnt < size
    ensures forall k | 0 <= k < cnt :: BatchSlot(size, start, k) != BatchSlot(size, start, cnt)
  {
    forall k | 0 <= k < cnt
      ensures BatchSlot(size, start, k) != BatchSlot(size, start, cnt)
    {
      SlotsDiffer(size, start + k, start + cnt);
    }
  }

  /** The first n buffers stand in the used ring, in order from slot start on. */
  ghost predicate Returned(size: nat, ring: seq<UsedElem>, start: nat, bufs: seq<BufVec>, lens: seq<nat>, n: nat)
    requires |ring| == size > 0 && n <= |bufs| && n <= |lens|
  {
    forall k | 0 <= k < n :: ring[BatchSlot(size, start, k)] == UsedElem(bufs[k].descIdx, lens[k])
  }

  /** Slots of the used ring other than those of the first n buffers keep their elements. */
  ghost predicate OnlyBatch(size: nat, before: seq<UsedElem>, after: seq<UsedElem>, start: nat, n: nat)
    requires |before| == |after| == size > 0
  {
    forall u | 0 <= u < size && (forall k | 0 <= k < n :: BatchSlot(size, start, k) != u) :: after[u] == before[u]
  }

  lemma OnlyBatchGrows(size: nat, before: seq<UsedElem>, mid: seq<UsedElem>, start: nat, n: nat, e: UsedElem)
    requires |before| == |mid| == size > 0 && OnlyBatch(size, before, mid, start, n)
    ensures OnlyBatch(size, before, mid[BatchSlot(size, start, n) := e], start, n + 1)
  {
    hide BatchSlot;
    var after := mid[BatchSlot(size, start, n) := e];
    forall u | 0 <= u < size && (forall k | 0 <= k < n + 1 :: BatchSlot(size, start, k) != u)
      ensures after[u] == before[u]
    {
      assert forall k | 0 <= k < n :: BatchSlot(size, start, k) != u;
    }
  }

  lemma ReturnedGrows(size: nat, ring: seq<UsedElem>, start: nat, bufs: seq<BufVec>, lens: seq<nat>, n: nat, used: nat)
    requires |ring| == size && n < size && n < |bufs| && n == |lens| && Returned(size, ring, start, bufs, lens, n)
    ensures Returned(size, ring[BatchSlot(size, start, n) := UsedElem(bufs[n].descIdx, used)], start, bufs,
                     lens + [used], n + 1)
  {
    hide BatchSlot;
    BatchSlotsDiffer(size, start, n);
  }

  class RxQueue {
    const size: nat
    const host: array<Byte>
    const usedRing: array<UsedElem>
    const regions: seq<Region>
    var desc: seq<Desc>
    var availRing: seq<nat>
    var availIdx: nat
    var usedIdx: nat
    var lastAvailIdx: nat
    var lastUsedIdx: nat

    ghost predicate Valid()
      reads this
    {
      RingSize(size) && usedRing.Length == size == |availRing| && lastAvailIdx < W16 && lastUsedIdx < W16
    }

    constructor (size: nat, host: array<Byte>, regions: seq<Region>, desc: seq<Desc>, availRing: seq<nat>)
      requires RingSize(size) && |availRing| == size
      ensures Valid() && this.size == size && this.host == host && fresh(usedRing)
      ensures this.regions == regions && this.desc == desc && this.availRing == availRing
      ensures availIdx == lastAvailIdx == lastUsedIdx == usedIdx == 0
    {
      this.size, this.host, this.usedRing := size, host, new UsedElem[size](_ => UsedElem(0, 0));
      this.regions, this.desc, this.availRing := regions, desc, availRing;
      availIdx, usedIdx, lastAvailIdx, lastUsedIdx := 0, 0, 0, 0;
    }

    /** Collects n buffers from the available ring, following NEXT where it is set. */
    method Collect(n: nat) returns (bufs: Option<seq<BufVec>>)
      requires Valid()
      ensures var a := lastAvailIdx % size; bufs == CollectFrom(desc, availRing, availRing[a % size], a, n)
    {
      var a: nat := lastAvailIdx % size;
      var i: nat := availRing[a % size];
      var got: seq<BufVec> := [];
      ghost var whole := CollectFrom(desc, availRing, i, a, n);
      hide RingSize;
      assert whole.Some? ==> [] + whole.value == whole.value;
      while |got| < n
        invariant |got| <= n
        invariant whole == Prepend(got, CollectFrom(desc, availRing, i, a, n - |got|))
      {
        if i >= |desc| || !DeviceWritable(desc[i]) {
          return None;
        }
        var one := BufVec(desc[i].addr, desc[i].len, i);
        if HasNext(desc[i]) {
          i := desc[i].next;
        } else {
          a := a + 1;
          i := availRing[a % size];
        }
        PrependMoves(got, one, CollectFrom(desc, availRing, i, a, n - |got| - 1));
        got := got + [one];
      }
      assert got + [] == got;
      bufs := Some(got);
    }

    /** Hands buffer k back to the guest: used element, both indices, used index. */
    method ReturnBuffer(id: nat, len: nat, ghost start: nat, ghost k: nat)
      requires Valid() && lastUsedIdx == Wrap16(start + k)
      modifies usedRing, `lastAvailIdx, `lastUsedIdx, `usedIdx
      ensures Valid()
      ensures lastUsedIdx == Wrap16(start + k + 1) == usedIdx && lastAvailIdx == Wrap16(old(lastAvailIdx) + 1)
      ensures usedRing[..] == old(usedRing[..])[BatchSlot(size, start, k) := UsedElem(id, len)]
    {
      SlotOfWrapped(size, start + k);
      WrapSuccessor(start + k);
      usedRing[Slot(size, lastUsedIdx)] := UsedElem(id, len);
      lastAvailIdx, lastUsedIdx := Wrap16(lastAvailIdx + 1), Wrap16(lastUsedIdx + 1);
      usedIdx := lastUsedIdx;
    }

    /**
     The copy loop: every buffer is filled, returned and published in turn. Afterwards the guest
     that reads the returned lengths finds the metadata and the frame.
     */
    method ScatterAndReturn(bufs: seq<BufVec>, vas: seq<nat>, meta: seq<Byte>, frame: seq<Byte>)
      returns (lens: seq<nat>)
      requires Valid() && 0 < |bufs| == |vas| <= size && bufs[0].len >= META_LEN && Free(bufs, vas, host.Length)
      requires |meta| == META_LEN && |frame| == FRAME_LEN
      modifies host, usedRing, `lastAvailIdx, `lastUsedIdx, `usedIdx
      ensures Valid() && |lens| == |bufs|
      ensures lastUsedIdx == usedIdx == Wrap16(old(lastUsedIdx) + |bufs|)
      ensures lastAvailIdx == Wrap16(old(lastAvailIdx) + |bufs|)
      ensures Returned(size, usedRing[..], old(lastUsedIdx), bufs, lens, |bufs|)
      ensures Filled(host[..], bufs, vas, meta, frame, lens, |bufs|)
      ensures Gathered(host[..], vas, lens, |bufs|) == meta + frame[..Min(FRAME_LEN, Capacity(bufs, |bufs|))]
      ensures OnlyBuffers(old(host[..]), host[..], bufs, vas, |bufs|)
      ensures OnlyBatch(size, old(usedRing[..]), usedRing[..], old(lastUsedIdx), |bufs|)
    {
      hide OnlyBuffers, OnlyBatch, SameOutside, RingSize, Filled, Returned, Free;
      hide Gathered, Capacity, Written, BatchSlot;
      var written, remaining := 0, FRAME_LEN;
      lens := [];
      ghost var start, first := lastUsedIdx, lastAvailIdx;
      NothingYet(size, host[..], usedRing[..], start, bufs, vas, meta, frame);
      ghost var bytes, ring := host[..], usedRing[..];
      assert Wrap16(start + 0) == start && Wrap16(first + 0) == first;
      hide Wrap16;
      for cnt := 0 to |bufs|
        invariant Valid() && |lens| == cnt
        invariant written == Written(bufs, cnt) && written + remaining == FRAME_LEN
        invariant lastUsedIdx == Wrap16(start + cnt) && lastAvailIdx == Wrap16(first + cnt)
        invariant cnt > 0 ==> usedIdx == lastUsedIdx
        invariant Returned(size, usedRing[..], start, bufs, lens, cnt)
        invariant Filled(host[..], bufs, vas, meta, frame, lens, cnt)
        invariant OnlyBuffers(bytes, host[..], bufs, vas, cnt)
        invariant OnlyBatch(size, ring, usedRing[..], start, cnt)
      {
        ghost var mid := host[..];
        var chunk, used := FillNext(host, bufs, vas, meta, frame, lens, cnt, written, remaining);
        OnlyBuffersGrows(bytes, mid, host[..], bufs, vas, cnt);
        ReturnedGrows(size, usedRing[..], start, bufs, lens, cnt, used);
        OnlyBatchGrows(size, ring, usedRing[..], start, cnt, UsedElem(bufs[cnt].descIdx, used));
        ReturnBuffer(bufs[cnt].descIdx, used, start, cnt);
        WrapSuccessor(first + cnt);
        remaining, written := remaining - chunk, written + chunk;
        lens := lens + [used];
      }
      FilledIsGathered(host[..], vas, lens, meta, frame, bufs);
    }

    /**
     The next three slots hold usable receive buffers. The source tests only that one head is
     available; what becomes of that is in ThreeHeadsExactly.
     */
    ghost predicate Usable()
      requires Valid()
      reads this
    {
      && NBUFS <= size && Singles(desc, availRing, lastAvailIdx % size, NBUFS)
      && var bufs := BuffersOf(desc, availRing, lastAvailIdx % size, NBUFS);
      && bufs[0].len >= META_LEN
      && (forall k | 0 <= k < NBUFS :: Translate(regions, GuestPhysical, bufs[k].addr).Some?)
      && Free(bufs, HostsOf(regions, bufs), host.Length)
    }

    /** One pass of the receive loop: nothing to do, or one frame delivered in three buffers. */
    method EnqueueFrame(meta: seq<Byte>, frame: seq<Byte>) returns (bufs: seq<BufVec>, lens: seq<nat>)
      requires Valid() && |meta| == 48 && |frame| == 10240
      requires lastAvailIdx != availIdx ==> Usable()
      modifies host, usedRing, `lastAvailIdx, `lastUsedIdx, `usedIdx
      ensures Valid() && |bufs| == |lens|
      ensures old(lastAvailIdx) == availIdx ==>
                bufs == [] && host[..] == old(host[..]) && usedRing[..] == old(usedRing[..])
                && lastAvailIdx == old(lastAvailIdx) && lastUsedIdx == old(lastUsedIdx) && usedIdx == old(usedIdx)
      ensures old(lastAvailIdx) != availIdx ==>
                && bufs == old(BuffersOf(desc, availRing, lastAvailIdx % size, NBUFS))
                && |bufs| == 3
                && (forall k | 0 <= k < 3 :: Describes(desc, bufs[k], availRing[BatchSlot(size, old(lastAvailIdx), k)]))
                && lastUsedIdx == usedIdx == Wrap16(old(lastUsedIdx) + NBUFS)
                && lastAvailIdx == Wrap16(old(lastAvailIdx) + NBUFS)
                && Returned(size, usedRing[..], old(lastUsedIdx), bufs, lens, NBUFS)
                && Gathered(host[..], HostsOf(regions, bufs), lens, NBUFS)
                   == meta + frame[..Min(FRAME_LEN, Capacity(bufs, NBUFS))]
                && lens[0] + lens[1] + lens[2] == 48 + Min(10240, bufs[0].len + bufs[1].len + bufs[2].len - 48)
                && BytesDelivered(host[..], HostsOf(regions, bufs), lens, meta + frame)
                && OnlyBuffers(old(host[..]), host[..], bufs, HostsOf(regions, bufs), 3)
                && OnlyBatch(size, old(usedRing[..]), usedRing[..], old(lastUsedIdx), 3)
    {
      hide OnlyBuffers, OnlyBatch, BytesDelivered, Describes, Free, Filled, Returned;
      hide RingSize, Translate, CollectFrom, Singles, BuffersOf;
      bufs, lens := [], [];
      if lastAvailIdx != availIdx {
        CollectsHeads(desc, availRing, lastAvailIdx % size, NBUFS);
        BuffersAreHeads(size, desc, availRing, lastAvailIdx, NBUFS);
        var got := Collect(NBUFS);
        bufs := got.value;
        var vas := HostsOf(regions, bufs);
        lens := ScatterAndReturn(bufs, vas, meta, frame);
        FilledFits(host[..], bufs, vas, meta, frame, lens);
        UsedLengthsSum(host[..], vas, lens, NBUFS);
        ThreeTotals(bufs, lens);
        GatheredIsDelivered(host[..], vas, lens, meta, frame, Min(FRAME_LEN, Capacity(bufs, NBUFS)));
      }
    }
  }

  /**
   At an input: the guest offers head 0 alone, and the frame goes into 0, 1 and 2, which it did not
   offer; the thread's index ends two ahead of the guest's.
   */
  method OneHeadOvertakes(meta: seq<Byte>, frame: seq<Byte>)
    returns (availIdx: nat, lastAvailIdx: nat, filled: seq<BufVec>)
    requires |meta| == META_LEN && |frame| == FRAME_LEN
    ensures availIdx == 1 && lastAvailIdx == 3
    ensures |filled| == 3 && filled[0].descIdx == 0 && filled[1].descIdx == 1 && filled[2].descIdx == 2
  {
    hide OnlyBuffers, OnlyBatch, BytesDelivered, Returned, Gathered, Capacity;
    var host := new Byte[0x3000];
    var regions := [Region(0, 0x3000, 0, 0, 0)];
    var desc := [Desc(0, 0x1000, 2, 0), Desc(0x1000, 0x1000, 2, 0), Desc(0x2000, 0x1000, 2, 0)];
    RingSizesArePowersOfTwo(4);
    assert Pow2(2) == 4;
    var q := new RxQueue(4, host, regions, desc, [0, 1, 2, 0]);
    q.availIdx := 1;
    StaleHeadsUsable(regions, desc, host.Length);
    var lens;
    filled, lens := q.EnqueueFrame(meta, frame);
    availIdx, lastAvailIdx := q.availIdx, q.lastAvailIdx;
  }

  lemma StaleHeadsUsable(regions: seq<Region>, desc: seq<Desc>, hostLen: nat)
    requires regions == [Region(0, 0x3000, 0, 0, 0)] && hostLen == 0x3000
    requires desc == [Desc(0, 0x1000, 2, 0), Desc(0x1000, 0x1000, 2, 0), Desc(0x2000, 0x1000, 2, 0)]
    ensures Singles(desc, [0, 1, 2, 0], 0, NBUFS)
    ensures var bufs := BuffersOf(desc, [0, 1, 2, 0], 0, NBUFS);
      && |bufs| == 3 && bufs[0].descIdx == 0 && bufs[1].descIdx == 1 && bufs[2].descIdx == 2
      && bufs[0].len >= META_LEN
      && (forall k | 0 <= k < NBUFS :: Translate(regions, GuestPhysical, bufs[k].addr).Some?)
      && Free(bufs, HostsOf(regions, bufs), hostLen)
  {
    var ring := [0, 1, 2, 0];
    assert Singles(desc, ring, 3, 0) && Singles(desc, ring, 2, 1) && Singles(desc, ring, 1, 2);
    assert BuffersOf(desc, ring, 3, 0) == [];
    assert BuffersOf(desc, ring, 2, 1) == [BufVec(0x2000, 0x1000, 2)];
    assert BuffersOf(desc, ring, 1, 2) == [BufVec(0x1000, 0x1000, 1), BufVec(0x2000, 0x1000, 2)];
    var bufs := BuffersOf(desc, ring, 0, NBUFS);
    assert bufs == [BufVec(0, 0x1000, 0), BufVec(0x1000, 0x1000, 1), BufVec(0x2000, 0x1000, 2)];
    forall addr: nat | addr < 0x3000
      ensures Translate(regions, GuestPhysical, addr) == Some(addr)
    {
      assert Covers(regions[0], GuestPhysical, addr);
    }
  }

  lemma FilledFits(host: seq<Byte>, bufs: seq<BufVec>, vas: seq<nat>, meta: seq<Byte>, frame: seq<Byte>, lens: seq<nat>)
    requires 0 < |vas| == |lens| == |bufs| && bufs[0].len >= META_LEN && |frame| == FRAME_LEN
    requires Filled(host, bufs, vas, meta, frame, lens, |bufs|)
    ensures forall k | 0 <= k < |bufs| :: Fits(host, vas[k], lens[k])
  {
  }

  /** Host addresses of the buffers. */
  function HostsOf(regions: seq<Region>, bufs: seq<BufVec>): (r: seq<nat>)
    requires forall k | 0 <= k < |bufs| :: Translate(regions, GuestPhysical, bufs[k].addr).Some?
    ensures |r| == |bufs|
    ensures forall k | 0 <= k < |bufs| :: r[k] == Translate(regions, GuestPhysical, bufs[k].addr).value
  {
    seq(|bufs|, k requires 0 <= k < |bufs| => Translate(regions, GuestPhysical, bufs[k].addr).value)
  }

  predicate Fits(host: seq<Byte>, va: nat, len: nat) {
    va + len <= |host|
  }

  /** Byte by byte: buffer k starts with what the buffers before it left, in order. */
  ghost predicate BytesDelivered(host: seq<Byte>, vas: seq<nat>, lens: seq<nat>, data: seq<Byte>)
    requires |vas| == |lens|
  {
    forall k, i | 0 <= k < |vas| && 0 <= i < lens[k] :: ByteOf(host, vas, lens, data, k, i)
  }

  /** Byte i of buffer k is the next one of the data after those of the earlier buffers. */
  predicate ByteOf(host: seq<Byte>, vas: seq<nat>, lens: seq<nat>, data: seq<Byte>, k: nat, i: nat)
    requires k < |vas| == |lens|
  {
    vas[k] + i < |host| && Sum(lens, k) + i < |data| && host[vas[k] + i] == data[Sum(lens, k) + i]
  }

  lemma {:induction false} GatheredByte(host: seq<Byte>, vas: seq<nat>, lens: seq<nat>, n: nat, k: nat, j: nat)
    requires k < n <= |vas| == |lens| && (forall i | 0 <= i < n :: Fits(host, vas[i], lens[i]))
    requires vas[k] <= j < vas[k] + lens[k]
    ensures var all, at := Gathered(host, vas, lens, n), Sum(lens, k) + (j - vas[k]);
      j < |host| && at < |all| && all[at] == host[j]
  {
    hide Slice;
    var front, last := Gathered(host, vas, lens, n - 1), Slice(host, vas[n - 1], lens[n - 1]);
    assert Gathered(host, vas, lens, n) == front + last;
    UsedLengthsSum(host, vas, lens, n - 1);
    assert Fits(host, vas[k], lens[k]);
    if k < n - 1 {
      GatheredByte(host, vas, lens, n - 1, k, j);
    } else {
      hide Gathered, Sum;
      SliceByte(host, vas[k], lens[k], j);
      assert (front + last)[|front| + (j - vas[k])] == last[j - vas[k]];
    }
  }

  lemma SliceByte(host: seq<Byte>, va: nat, len: nat, j: nat)
    requires Fits(host, va, len) && va <= j < va + len
    ensures |Slice(host, va, len)| == len && Slice(host, va, len)[j - va] == host[j]
  {
  }

  lemma GatheredIsDelivered(host: seq<Byte>, vas: seq<nat>, lens: seq<nat>, meta: seq<Byte>, frame: seq<Byte>, m: nat)
    requires |vas| == |lens| && m <= |frame| && (forall i | 0 <= i < |vas| :: Fits(host, vas[i], lens[i]))
    requires Gathered(host, vas, lens, |vas|) == meta + frame[..m]
    ensures BytesDelivered(host, vas, lens, meta + frame)
  {
    hide Gathered, Sum;
    forall k, i | 0 <= k < |vas| && 0 <= i < lens[k]
      ensures ByteOf(host, vas, lens, meta + frame, k, i)
    {
      GatheredByte(host, vas, lens, |vas|, k, vas[k] + i);
      PrefixByte(meta, frame, m, Sum(lens, k) + i);
    }
  }

  lemma PrefixByte(meta: seq<Byte>, frame: seq<Byte>, m: nat, at: nat)
    requires m <= |frame| && at < |meta| + m
    ensures (meta + frame[..m])[at] == (meta + frame)[at]
  {
  }

  lemma ThreeTotals(bufs: seq<BufVec>, lens: seq<nat>)
    requires |bufs| == |lens| == 3 && bufs[0].len >= META_LEN
    ensures Sum(lens, 3) == lens[0] + lens[1] + lens[2]
    ensures Capacity(bufs, 3) == bufs[0].len + bufs[1].len + bufs[2].len - 48
  {
    assert Sum(lens, 1) == lens[0] && Sum(lens, 2) == lens[0] + lens[1];
    assert Capacity(bufs, 1) == bufs[0].len - 48 && Capacity(bufs, 2) == bufs[0].len + bufs[1].len - 48;
  }

  function Sum(lens: seq<nat>, k: nat): nat
    requires k <= |lens|
  {
    if k == 0 then 0 else Sum(lens, k - 1) + lens[k - 1]
  }

  /** The used lengths add up to the metadata and the bytes written. */
  lemma {:induction false} UsedLengthsSum(host: seq<Byte>, vas: seq<nat>, lens: seq<nat>, k: nat)
    requires k <= |vas| == |lens| && forall j | 0 <= j < k :: Fits(host, vas[j], lens[j])
    ensures |Gathered(host, vas, lens, k)| == Sum(lens, k)
  {
    hide Slice;
    if k > 0 {
      UsedLengthsSum(host, vas, lens, k - 1);
      SliceLength(host, vas[k - 1], lens[k - 1]);
    }
  }

  lemma SliceLength(host: seq<Byte>, va: nat, len: nat)
    requires Fits(host, va, len)
    ensures |Slice(host, va, len)| == len
  {
  }

  lemma NothingYet(size: nat, host: seq<Byte>, ring: seq<UsedElem>, start: nat, bufs: seq<BufVec>, vas: seq<nat>,
                   meta: seq<Byte>, frame: seq<Byte>)
    requires |ring| == size > 0 && |bufs| == |vas| > 0 && bufs[0].len >= META_LEN && |frame| == FRAME_LEN
    ensures Returned(size, ring, start, bufs, [], 0) && Filled(host, bufs, vas, meta, frame, [], 0)
    ensures Written(bufs, 0) == 0
    ensures OnlyBuffers(host, host, bufs, vas, 0) && OnlyBatch(size, ring, ring, start, 0)
  {
  }

  lemma FilledIsGathered(host: seq<Byte>, vas: seq<nat>, lens: seq<nat>, meta: seq<Byte>, frame: seq<Byte>,
                         bufs: seq<BufVec>)
    requires 0 < |vas| == |lens| == |bufs| && bufs[0].len >= META_LEN && |frame| == FRAME_LEN
    requires Filled(host, bufs, vas, meta, frame, lens, |bufs|)
    ensures Gathered(host, vas, lens, |bufs|) == meta + frame[..Min(FRAME_LEN, Capacity(bufs, |bufs|))]
  {
    hide Holds, Piece;
    GatherUndoesScatter(host, vas, lens, meta, frame, bufs, |bufs|);
  }

  function Prepend(got: seq<BufVec>, rest: Option<seq<BufVec>>): Option<seq<BufVec>> {
    match rest
    case None => None
    case Some(b) => Some(got + b)
  }

  lemma PrependMoves(got: seq<BufVec>, one: BufVec, rest: Option<seq<BufVec>>)
    ensures Prepend(got, Prepend([one], rest)) == Prepend(got + [one], rest)
  {
    if rest.Some? {
      assert got + ([one] + rest.value) == got + [one] + rest.value;
    }
  }
}
