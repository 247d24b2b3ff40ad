/** Runs in which a reload of a running queue puts it out of order. */
module TxReloadRun {
  import opened Wrappers
  import opened Words
  import opened Regions
  import opened Chains
  import opened TxRing
  import opened TxRingSafety
  import opened TxReload

  datatype Trace = Trace(ss: seq<Session>, es: seq<Event>)

  /** A run of a ring of two that has come to s. */
  ghost predicate Ends(t: Trace, s: Session) {
    SessionRun(2, t.ss, t.es) && t.ss[|t.es|] == s
  }

  lemma EndOf(t: Trace, s: Session)
    requires Ends(t, s)
    ensures SessionRun(2, t.ss, t.es) && t.ss[|t.es|] == s
  {
  }

  ghost predicate Continues(t: Trace, t': Trace) {
    t.ss <= t'.ss && t.es <= t'.es
  }

  lemma ContinuesOn(t: Trace, t': Trace, t'': Trace)
    requires Continues(t, t') && Continues(t', t'')
    ensures Continues(t, t'')
  {
  }

  /** The run, one event longer. */
  lemma Extend(t: Trace, s: Session, e: Event, s': Session) returns (t': Trace)
    requires Ends(t, s) && SessionNext(2, s, e, s')
    ensures Ends(t', s') && Continues(t, t') && |t'.es| == |t.es| + 1 && t'.es[|t.es|] == e
  {
    t' := Trace(t.ss + [s'], t.es + [e]);
  }

  lemma Thread(t: Trace, w: World, ctl: Control, w': World) returns (t': Trace)
    requires Ends(t, Session(w, ctl)) && w' == DeviceStep(2, w)
    ensures Ends(t', Session(w', Note(Session(w, ctl), DeviceMove))) && Continues(t, t')
  {
    hide DeviceStep;
    t' := Extend(t, Session(w, ctl), Step(DeviceMove), Session(w', Note(Session(w, ctl), DeviceMove)));
  }

  lemma Reads(t: Trace, w: World) returns (t': Trace)
    requires Ends(t, Session(w, Idle))
    ensures Ends(t', Session(Reclaim(2, w), Idle)) && Continues(t, t')
  {
    hide Reclaim;
    t' := Extend(t, Session(w, Idle), Step(ReclaimMove), Session(Reclaim(2, w), Idle));
  }

  // ----- two chains of one descriptor with one readable byte each; k of them are available -----

  const BYTES: Mem := Mem([Region(0, 16, 0, 0, 0)], [Desc(0, 1, 0, 0), Desc(0, 1, 0, 0)], _ => 7)
  const BLANK: seq<UsedElem> := [UsedElem(0, 0), UsedElem(0, 0)]

  function Held(k: nat): map<nat, seq<nat>> {
    if k == 0 then map[] else if k == 1 then map[0 := [0]] else map[0 := [0], 1 := [1]]
  }

  function Ring(k: nat, pc: Pc, used: seq<UsedElem>, usedIdx: nat, lastAvail: nat, lastUsed: nat): Machine {
    Machine(BYTES, [0, 1], k, used, usedIdx, lastAvail, lastUsed, pc, Held(k), 0, true)
  }

  function Sent(k: nat): seq<Entry> {
    [Entry([0], Frame([7])), Entry([1], Frame([7]))][..if k < 2 then k else 2]
  }

  lemma ByteArrives(i: nat)
    requires i < 2
    ensures WalkStep(BYTES, At(i, [])) == Done(Frame([7]))
    ensures IsChain(BYTES.desc, [i]) && Reassemble(BYTES, [i], []) == Frame([7])
  {
    assert Covers(BYTES.regions[0], GuestPhysical, 0);
    assert Bytes(BYTES.host, 0, 1) == [7];
    assert Absorb(BYTES, i, []) == Frame([7]);
    assert [i][1..] == [];
  }

  /** The driver makes k chains available. */
  lemma {:induction false} Offered(k: nat) returns (t: Trace)
    requires k <= 2
    ensures Ends(t, Session(World(Ring(k, Check, BLANK, 0, 0, 0), History(Sent(k), [], 0, [], 0, [], [])), Idle))
  {
    if k == 0 {
      t := Trace([Session(World(Ring(0, Check, BLANK, 0, 0, 0), History([], [], 0, [], 0, [], [])), Idle)], []);
    } else {
      t := Offered(k - 1);
      hide Ends;
      ByteArrives(k - 1);
      hide Reassemble;
      var w0 := World(Ring(k - 1, Check, BLANK, 0, 0, 0), History(Sent(k - 1), [], 0, [], 0, [], []));
      var w1 := World(Ring(k, Check, BLANK, 0, 0, 0), History(Sent(k), [], 0, [], 0, [], []));
      assert Sent(k) == Sent(k - 1) + [Entry([k - 1], Frame([7]))];
      assert Held(k) == Held(k - 1)[k - 1 := [k - 1]];
      assert Expose(w0, [k - 1]) == w1;
      t := Extend(t, Session(w0, Idle), Step(ExposeMove([k - 1])), Session(w1, Idle));
    }
  }

  /** What the control thread's place becomes when a slot is picked for the next entry. */
  function Picked(ctl: Control, h: History): Control {
    if ctl.Half? && ctl.first.None? then Half(ctl.lag, Some(|h.received|)) else ctl
  }

  /** The thread serves the next chain, in the slot of its used index, up to the increments. */
  lemma Serve(t: Trace, k: nat, used: seq<UsedElem>, a: nat, u: nat, h: History, ctl: Control) returns (t': Trace)
    requires |used| == 2 && a < 2 && u < 2 && a < k <= 2
    requires Ends(t, Session(World(Ring(k, Check, used, 0, a, u), h), ctl))
    ensures Ends(t', Session(World(Ring(k, BumpAvail(a, [7]), used[u := UsedElem(a, 1)], 0, a, u), h.(pos := 0)),
                             Picked(ctl, h)))
    ensures Continues(t, t')
  {
    hide Ends;
    ByteArrives(a);
    hide WalkStep, Held;
    var w0, w1 := World(Ring(k, Check, used, 0, a, u), h), World(Ring(k, Fetch, used, 0, a, u), h);
    var w2 := World(Ring(k, PickSlot(a), used, 0, a, u), h);
    t' := Thread(t, w0, ctl, w1);
    t' := Thread(t', w1, ctl, w2);
    var h', ctl' := h.(pos := 0), Picked(ctl, h);
    var w3 := World(Ring(k, Walking(a, u, a, []), used, 0, a, u), h');
    var w4 := World(Ring(k, StoreId(a, u, [7]), used, 0, a, u), h');
    t' := Thread(t', w2, ctl, w3);
    t' := Thread(t', w3, ctl', w4);
    var named, done := used[u := used[u].(id := a)], used[u := UsedElem(a, 1)];
    var w5 := World(Ring(k, StoreLen(a, u, [7]), named, 0, a, u), h');
    var w6 := World(Ring(k, BumpAvail(a, [7]), done, 0, a, u), h');
    t' := Thread(t', w4, ctl', w5);
    assert named[u := named[u].(len := 1)] == done;
    t' := Thread(t', w5, ctl', w6);
  }

  function Received(h: History): History {
    h.(received := h.received + [[7]], log := h.log + [[7]])
  }

  /** The two increments. */
  lemma Increments(t: Trace, k: nat, used: seq<UsedElem>, a: nat, u: nat, h: History, ctl: Control) returns (t': Trace)
    requires a < 2 && u < 2 && Ends(t, Session(World(Ring(k, BumpAvail(a, [7]), used, 0, a, u), h), ctl))
    ensures Ends(t', Session(World(Ring(k, Check, used, 0, a + 1, u + 1), Received(h)), ctl)) && Continues(t, t')
  {
    hide Ends, Held;
    var w0 := World(Ring(k, BumpAvail(a, [7]), used, 0, a, u), h);
    var w1 := World(Ring(k, BumpUsed, used, 0, a + 1, u), Received(h));
    var w2 := World(Ring(k, Check, used, 0, a + 1, u + 1), Received(h));
    t' := Thread(t, w0, ctl, w1);
    t' := Thread(t', w1, ctl, w2);
  }

  /** The thread finds nothing more and publishes. */
  lemma Publishes(t: Trace, k: nat, used: seq<UsedElem>, u: nat, h: History, ctl: Control) returns (t': Trace)
    requires u <= 2 && Ends(t, Session(World(Ring(k, Check, used, 0, k, u), h), ctl))
    ensures Ends(t', Session(World(Ring(k, Check, used, u, k, u), h.(published := h.published + u)), ctl))
    ensures Continues(t, t')
  {
    hide Ends, Held;
    var w0, w1 := World(Ring(k, Check, used, 0, k, u), h), World(Ring(k, Publish, used, 0, k, u), h);
    t' := Thread(t, w0, ctl, w1);
    t' := Thread(t', w1, ctl, World(Ring(k, Check, used, u, k, u), h.(published := h.published + u)));
  }

  // ----- both increments fall between the two stores -----

  /** The used index ends one ahead of the available one. */
  lemma Overtaken() returns (t: Trace)
    ensures Ends(t, Session(World(Ring(1, Check, BLANK[0 := UsedElem(0, 1)], 0, 0, 1),
                                  History(Sent(1), [], 0, [], 0, [[7]], [[7]])), Idle))
  {
    t := Offered(1);
    hide Ends;
    var used, h := BLANK[0 := UsedElem(0, 1)], History(Sent(1), [], 0, [], 0, [], []);
    t := Serve(t, 1, BLANK, 0, 0, h, Idle);
    var w := World(Ring(1, BumpAvail(0, [7]), used, 0, 0, 0), h);
    t := Extend(t, Session(w, Idle), LoadUsed, Session(w, Half(0, None)));
    t := Increments(t, 1, used, 0, 0, h, Half(0, None));
    var w' := World(Ring(1, Check, used, 0, 1, 1), Received(h));
    assert [] + [[7]] == [[7]];
    assert StoreAvail(w') == World(Ring(1, Check, used, 0, 0, 1), History(Sent(1), [], 0, [], 0, [[7]], [[7]]));
    t := Extend(t, Session(w', Half(0, None)), LoadAvail, Session(StoreAvail(w'), Idle));
  }

  /**
   The thread then serves the chain a second time and publishes two elements, and the driver, which
   made one chain available, reads its id twice.
   */
  lemma ReloadReturnsChainTwice() returns (t: Trace)
    ensures SessionRun(2, t.ss, t.es)
    ensures var w := t.ss[|t.es|].w;
      |w.h.sent| == 1 && w.h.harvested == [0, 0] && w.h.log == [[7], [7]] && !w.m.driverOk
  {
    t := Overtaken();
    hide Ends;
    var used, done := BLANK[0 := UsedElem(0, 1)], BLANK[0 := UsedElem(0, 1)][1 := UsedElem(0, 1)];
    var h := History(Sent(1), [], 0, [], 0, [[7]], [[7]]);
    t := Serve(t, 1, used, 0, 1, h, Idle);
    t := Increments(t, 1, done, 0, 1, h, Idle);
    t := Publishes(t, 1, done, 2, Received(h), Idle);
    var w := World(Ring(1, Check, done, 2, 1, 2), Received(h).(published := 2));
    t := Reads(t, w);
    t := Reads(t, Reclaim(2, w));
    EndOf(t, Session(Reclaim(2, Reclaim(2, w)), Idle));
    assert [[7]] + [[7]] == [[7], [7]] && [] + [0] + [0] == [0, 0];
  }

  // ----- no entry in hand at either store, and one served between them -----

  /** One entry is consumed and unpublished, another is available, and the thread is at its check. */
  lemma OneUnpublished() returns (t: Trace)
    ensures Ends(t, Session(World(Ring(2, Check, BLANK[0 := UsedElem(0, 1)], 0, 1, 1),
                                  Received(History(Sent(2), [], 0, [], 0, [], []))), Idle))
  {
    t := Offered(2);
    hide Ends;
    var used, h := BLANK[0 := UsedElem(0, 1)], History(Sent(2), [], 0, [], 0, [], []);
    t := Serve(t, 2, BLANK, 0, 0, h, Idle);
    t := Increments(t, 2, used, 0, 0, h, Idle);
  }

  /** After the first store the other entry is served, and published in the slot of the first. */
  lemma ServedBetween(t: Trace, h: History) returns (t': Trace)
    requires h == Received(History(Sent(2), [], 0, [], 0, [], []))
    requires Ends(t, Session(World(Ring(2, Check, BLANK[0 := UsedElem(0, 1)], 0, 1, 0), h), Half(1, None)))
    ensures Ends(t', Session(World(Ring(2, Check, BLANK[0 := UsedElem(1, 1)], 1, 2, 1),
                                   Received(h).(published := 1)), Half(1, Some(1))))
    ensures Continues(t, t')
  {
    hide Ends, Continues;
    var used, done := BLANK[0 := UsedElem(0, 1)], BLANK[0 := UsedElem(1, 1)];
    var t1 := Serve(t, 2, used, 1, 0, h, Half(1, None));
    assert used[0 := UsedElem(1, 1)] == done;
    assert Picked(Half(1, None), h) == Half(1, Some(1));
    var t2 := Increments(t1, 2, done, 1, 0, h, Half(1, Some(1)));
    t' := Publishes(t2, 2, done, 1, Received(h), Half(1, Some(1)));
    ContinuesOn(t, t1, t2);
    ContinuesOn(t, t2, t');
  }

  /**
   The second entry takes the slot of the first and is published in its place: the thread stands at
   its check at both stores, and the driver reads the id of the second chain first.
   */
  lemma EntryBetweenStoresMisplaced() returns (t: Trace, first: nat, second: nat)
    ensures SessionRun(2, t.ss, t.es) && first < second < |t.es|
    ensures t.es[first].LoadUsed? && t.ss[first].w.m.pc.Check?
    ensures t.es[second].LoadAvail? && t.ss[second].w.m.pc.Check?
    ensures var h := t.ss[|t.es|].w.h;
      |h.sent| == 2 && Head(h.sent[0]) == 0 && Head(h.sent[1]) == 1 && h.harvested == [1]
  {
    hide Ends, Continues;
    var h := Received(History(Sent(2), [], 0, [], 0, [], []));
    var w0 := World(Ring(2, Check, BLANK[0 := UsedElem(0, 1)], 0, 1, 1), h);
    var w1 := World(Ring(2, Check, BLANK[0 := UsedElem(1, 1)], 1, 2, 1), Received(h).(published := 1));
    var t0 := OneUnpublished();
    var t1 := Extend(t0, Session(w0, Idle), LoadUsed, Session(StoreUsed(w0), Half(1, None)));
    var t2 := ServedBetween(t1, h);
    var t3 := Extend(t2, Session(w1, Half(1, Some(1))), LoadAvail, Session(StoreAvail(w1), Idle));
    t := Reads(t3, StoreAvail(w1));
    first, second := |t0.es|, |t2.es|;
    ContinuesOn(t2, t3, t);
    ContinuesOn(t1, t2, t);
    ContinuesOn(t0, t1, t);
    EndOf(t0, Session(w0, Idle));
    EndOf(t2, Session(w1, Half(1, Some(1))));
    EndOf(t, Session(Reclaim(2, StoreAvail(w1)), Idle));
    Places(t0, t1, t, Session(w0, Idle), LoadUsed);
    Places(t2, t3, t, Session(w1, Half(1, Some(1))), LoadAvail);
    assert |t1.es| <= |t2.es| by { LongerOn(t1, t2); }
    assert [] + [1] == [1];
  }

  lemma LongerOn(t: Trace, t': Trace)
    requires Continues(t, t')
    ensures |t.es| <= |t'.es|
  {
  }

  /** Where an event of a run came in, it still is in every continuation. */
  lemma Places(t: Trace, t': Trace, t'': Trace, s: Session, e: Event)
    requires Ends(t, s) && |t'.es| == |t.es| + 1 && t'.es[|t.es|] == e
    requires Continues(t, t'') && Continues(t', t'')
    ensures |t.es| < |t''.es| && t''.es[|t.es|] == e && |t.es| < |t''.ss| && t''.ss[|t.es|] == s
  {
  }
}
