/** The configuration manager's table of ports, queue pairs and sockets. */
module QueueTable {
  import opened Words

  const MAX_QUEUE_PAIRS: nat := 8

  datatype VhostPair = VhostPair(rxqId: nat, txqId: nat, rxEnabled: bool, txEnabled: bool)
  datatype VhostDevice = VhostDevice(vid: int, nofQueuePairs: int, qp: seq<VhostPair>, ready: bool, ctlqId: nat)
  datatype PortPair = PortPair(rxqId: int, txqId: int)
  datatype PortDevice = PortDevice(qp: seq<PortPair>, ctlqId: int)
  datatype PortMap = PortMap(vd: VhostDevice, pd: PortDevice)

  type Table = map<int, PortMap>

  predicate Shaped(pm: PortMap) {
    |pm.vd.qp| == MAX_QUEUE_PAIRS == |pm.pd.qp| && pm.vd.nofQueuePairs <= MAX_QUEUE_PAIRS
  }

  predicate ShapedTable(t: Table) {
    forall p | p in t :: Shaped(t[p])
  }

  /** A map entry that did not exist is value-initialised. */
  function Fresh(): (r: PortMap)
    ensures Shaped(r)
  {
    PortMap(VhostDevice(0, 0, seq(MAX_QUEUE_PAIRS, _ => VhostPair(0, 0, false, false)), false, 0),
            PortDevice(seq(MAX_QUEUE_PAIRS, _ => PortPair(0, 0)), 0))
  }

  datatype Call =
    | InitDevice(port: int, vid: int, pairs: int)
    | SetState(port: int, vring: nat, enable: bool)
    | AssignSocket(port: int, qpIdx: int, fd: int)
    | AssignControl(port: int, fd: int)

  /** What the sources rely on: no more pairs than there are slots, no negative pair index. */
  predicate Legal(c: Call) {
    match c
    case InitDevice(_, _, pairs) => pairs <= MAX_QUEUE_PAIRS
    case AssignSocket(_, qpIdx, _) => qpIdx >= 0
    case _ => true
  }

  function FreshPair(i: nat): VhostPair {
    VhostPair(2 * i, 2 * i + 1, false, false)
  }

  function InitOf(pm: PortMap, vid: int, pairs: int): (r: PortMap)
    requires Shaped(pm) && pairs <= MAX_QUEUE_PAIRS
    ensures Shaped(r)
  {
    PortMap(pm.vd.(vid := vid, nofQueuePairs := pairs, ready := true,
                   qp := seq(MAX_QUEUE_PAIRS, i requires 0 <= i < MAX_QUEUE_PAIRS =>
                             if i < pairs then FreshPair(i) else pm.vd.qp[i])),
            pm.pd.(qp := seq(MAX_QUEUE_PAIRS, i requires 0 <= i < MAX_QUEUE_PAIRS =>
                             if i < pairs then PortPair(-1, -1) else pm.pd.qp[i])))
  }

  /** The scan for the vring, from pair i on. */
  function SetFrom(vd: VhostDevice, vring: nat, enable: bool, i: nat): (r: VhostDevice)
    requires |vd.qp| == MAX_QUEUE_PAIRS && vd.nofQueuePairs <= MAX_QUEUE_PAIRS
    ensures |r.qp| == MAX_QUEUE_PAIRS && r == vd.(qp := r.qp)
    decreases vd.nofQueuePairs - i
  {
    if i >= vd.nofQueuePairs then vd
    else if vd.qp[i].rxqId == vring then vd.(qp := vd.qp[i := vd.qp[i].(rxEnabled := enable)])
    else if vd.qp[i].txqId == vring then vd.(qp := vd.qp[i := vd.qp[i].(txEnabled := enable)])
    else SetFrom(vd, vring, enable, i + 1)
  }

  function Apply(t: Table, c: Call): (r: Table)
    requires ShapedTable(t) && Legal(c)
    ensures ShapedTable(r)
  {
    match c
    case InitDevice(port, vid, pairs) =>
      t[port := InitOf(if port in t then t[port] else Fresh(), vid, pairs)]
    case SetState(port, vring, enable) =>
      if port !in t then t else t[port := t[port].(vd := SetFrom(t[port].vd, vring, enable, 0))]
    case AssignSocket(port, qpIdx, fd) =>
      if port !in t || qpIdx >= MAX_QUEUE_PAIRS then t
      else
        var pm := t[port];
        t[port := PortMap(if qpIdx == 0 then pm.vd.(ready := true) else pm.vd,
                          pm.pd.(qp := pm.pd.qp[qpIdx := PortPair(fd, fd)]))]
    case AssignControl(port, fd) =>
      if port !in t then t
      else t[port := PortMap(t[port].vd.(ctlqId := Wrap16(fd)), t[port].pd.(ctlqId := fd))]
  }

  function RunCalls(calls: seq<Call>): (r: Table)
    requires forall c | c in calls :: Legal(c)
    ensures ShapedTable(r)
  {
    if calls == [] then map[] else Apply(RunCalls(calls[..|calls| - 1]), calls[|calls| - 1])
  }

  // ----- the map a reader has in mind -----

  /** Queue pairs of the port's last initialisation. */
  function PairsOf(calls: seq<Call>, port: int): int {
    if calls == [] then 0
    else
      var last := calls[|calls| - 1];
      if last.InitDevice? && last.port == port then last.pairs else PairsOf(calls[..|calls| - 1], port)
  }

  predicate Initialised(calls: seq<Call>, port: int) {
    exists i :: 0 <= i < |calls| && calls[i].InitDevice? && calls[i].port == port
  }

  /** The last value set for a vring since the port's last initialisation; false if none. */
  function LastSet(calls: seq<Call>, port: int, vring: nat): bool {
    if calls == [] then false
    else
      var last := calls[|calls| - 1];
      if last.SetState? && last.port == port && last.vring == vring then last.enable
      else if last.InitDevice? && last.port == port then false
      else LastSet(calls[..|calls| - 1], port, vring)
  }

  function Flag(vd: VhostDevice, vring: nat): bool
    requires vring / 2 < |vd.qp|
  {
    if vring % 2 == 0 then vd.qp[vring / 2].rxEnabled else vd.qp[vring / 2].txEnabled
  }

  /** The ids of the pairs in use stay even and odd. */
  predicate Numbered(vd: VhostDevice) {
    forall i | 0 <= i < |vd.qp| && i < vd.nofQueuePairs :: vd.qp[i].rxqId == 2 * i && vd.qp[i].txqId == 2 * i + 1
  }

  /** On numbered pairs the scan writes the flag of its vring and no other. */
  lemma {:induction false} SetFromWrites(vd: VhostDevice, vring: nat, enable: bool, i: nat, v: nat)
    requires |vd.qp| == MAX_QUEUE_PAIRS && vd.nofQueuePairs <= MAX_QUEUE_PAIRS && Numbered(vd)
    requires vring >= 2 * i && v < 2 * MAX_QUEUE_PAIRS
    ensures Numbered(SetFrom(vd, vring, enable, i))
    ensures Flag(SetFrom(vd, vring, enable, i), v)
         == if v == vring && v < 2 * vd.nofQueuePairs then enable else Flag(vd, v)
    decreases vd.nofQueuePairs - i
  {
    if i < vd.nofQueuePairs && vd.qp[i].rxqId != vring && vd.qp[i].txqId != vring {
      SetFromWrites(vd, vring, enable, i + 1, v);
    }
  }

  /** One call's effect on a port, in terms of the map. */
  lemma ApplyMeaning(t: Table, c: Call, port: int, v: nat)
    requires ShapedTable(t) && Legal(c) && (port in t ==> Numbered(t[port].vd))
    requires v < 2 * MAX_QUEUE_PAIRS
    ensures var r := Apply(t, c);
      && (port in r <==> port in t || (c.InitDevice? && c.port == port))
      && (port in r ==> Numbered(r[port].vd))
      && (c.port != port ==> (port in t ==> r[port] == t[port]))
      && (c.InitDevice? && c.port == port ==>
            r[port].vd.nofQueuePairs == c.pairs && (v < 2 * c.pairs ==> !Flag(r[port].vd, v)))
      && (port in t && !(c.InitDevice? && c.port == port) ==>
            && r[port].vd.nofQueuePairs == t[port].vd.nofQueuePairs
            && (Flag(r[port].vd, v) ==
                  if c.SetState? && c.port == port && c.vring == v && v < 2 * t[port].vd.nofQueuePairs
                  then c.enable else Flag(t[port].vd, v)))
  {
    if c.SetState? && c.port == port && port in t {
      SetFromWrites(t[port].vd, c.vring, c.enable, 0, v);
    }
  }

  /** The same by vring: every vring in range has the last value set since the port's last initialisation. */
  lemma {:induction false} TableFlag(calls: seq<Call>, port: int, v: nat)
    requires forall c | c in calls :: Legal(c)
    requires v < 2 * MAX_QUEUE_PAIRS
    ensures var t := RunCalls(calls);
      && (port in t <==> Initialised(calls, port))
      && (port in t ==> Numbered(t[port].vd) && t[port].vd.nofQueuePairs == PairsOf(calls, port))
      && (port in t && v < 2 * PairsOf(calls, port) ==> Flag(t[port].vd, v) == LastSet(calls, port, v))
  {
    if calls != [] {
      var init, last := calls[..|calls| - 1], calls[|calls| - 1];
      TableFlag(init, port, v);
      ApplyMeaning(RunCalls(init), last, port, v);
      InitialisedLast(calls, port);
    }
  }

  /**
   For every call history: a port is present exactly if it was initialised; the ids of pair i are 2i
   and 2i + 1, and its receive and transmit flags are the last values set for these two vrings since
   the port's last initialisation.
   */
  lemma TableIsMap(calls: seq<Call>, port: int, i: nat)
    requires (forall c | c in calls :: Legal(c)) && i < 8
    ensures var t := RunCalls(calls);
      && (port in t <==> Initialised(calls, port))
      && (port in t ==> t[port].vd.nofQueuePairs == PairsOf(calls, port))
      && (port in t && i < PairsOf(calls, port) ==>
            && t[port].vd.qp[i].rxqId == 2 * i && t[port].vd.qp[i].txqId == 2 * i + 1
            && t[port].vd.qp[i].rxEnabled == LastSet(calls, port, 2 * i)
            && t[port].vd.qp[i].txEnabled == LastSet(calls, port, 2 * i + 1))
  {
    hide RunCalls, LastSet, Initialised, PairsOf;
    TableFlag(calls, port, 2 * i);
    TableFlag(calls, port, 2 * i + 1);
  }

  /** The socket pair last assigned to queue pair i, reset to -1 by an initialisation that covers i. */
  function LastSocket(calls: seq<Call>, port: int, i: nat): PortPair {
    if calls == [] then PortPair(0, 0)
    else
      var last := calls[|calls| - 1];
      if last.AssignSocket? && last.port == port && last.qpIdx == i && Initialised(calls[..|calls| - 1], port)
      then PortPair(last.fd, last.fd)
      else if last.InitDevice? && last.port == port && i < last.pairs then PortPair(-1, -1)
      else LastSocket(calls[..|calls| - 1], port, i)
  }

  /** The control path last assigned; initialisation does not reset it. */
  function LastControl(calls: seq<Call>, port: int): int {
    if calls == [] then 0
    else
      var last := calls[|calls| - 1];
      if last.AssignControl? && last.port == port && Initialised(calls[..|calls| - 1], port) then last.fd
      else LastControl(calls[..|calls| - 1], port)
  }

  /** The device id of the port's last initialisation. */
  function LastVid(calls: seq<Call>, port: int): int {
    if calls == [] then 0
    else
      var last := calls[|calls| - 1];
      if last.InitDevice? && last.port == port then last.vid else LastVid(calls[..|calls| - 1], port)
  }

  /** Nothing was assigned to a port that was never initialised. */
  lemma {:induction false} UninitialisedIsBlank(calls: seq<Call>, port: int, i: nat)
    requires !Initialised(calls, port)
    ensures LastSocket(calls, port, i) == PortPair(0, 0) && LastControl(calls, port) == 0
  {
    if calls != [] {
      InitialisedLast(calls, port);
      UninitialisedIsBlank(calls[..|calls| - 1], port, i);
    }
  }

  /** For every call history: sockets, control path, device id and readiness are those last assigned. */
  lemma {:induction false} TableSockets(calls: seq<Call>, port: int, i: nat)
    requires forall c | c in calls :: Legal(c)
    requires i < MAX_QUEUE_PAIRS && port in RunCalls(calls)
    ensures var pm := RunCalls(calls)[port];
      && pm.pd.qp[i] == LastSocket(calls, port, i)
      && pm.pd.ctlqId == LastControl(calls, port) && pm.vd.ctlqId == Wrap16(LastControl(calls, port))
      && pm.vd.vid == LastVid(calls, port) && pm.vd.ready
  {
    var init, last := calls[..|calls| - 1], calls[|calls| - 1];
    TableFlag(init, port, 0);
    if port in RunCalls(init) {
      TableSockets(init, port, i);
    } else {
      UninitialisedIsBlank(init, port, i);
    }
  }

  lemma InitialisedLast(calls: seq<Call>, port: int)
    requires calls != []
    ensures var init, last := calls[..|calls| - 1], calls[|calls| - 1];
      Initialised(calls, port) <==> Initialised(init, port) || (last.InitDevice? && last.port == port)
  {
    var init := calls[..|calls| - 1];
    if Initialised(init, port) {
      var i :| 0 <= i < |init| && init[i].InitDevice? && init[i].port == port;
      assert calls[i] == init[i];
    }
    if Initialised(calls, port) {
      var i :| 0 <= i < |calls| && calls[i].InitDevice? && calls[i].port == port;
      if i < |init| {
        assert init[i] == calls[i];
      }
    }
  }

  /** Enabling a vring touches neither sockets, ids, control path nor readiness of its port. */
  lemma SetStateTouchesOnlyFlags(t: Table, port: int, vring: nat, enable: bool)
    requires ShapedTable(t) && port in t && Numbered(t[port].vd)
    ensures var before, after := t[port], Apply(t, SetState(port, vring, enable))[port];
      && after.pd == before.pd
      && after.vd == before.vd.(qp := after.vd.qp)
      && (forall i | 0 <= i < MAX_QUEUE_PAIRS ::
            after.vd.qp[i].rxqId == before.vd.qp[i].rxqId && after.vd.qp[i].txqId == before.vd.qp[i].txqId)
  {
    IdsSurvive(t[port].vd, vring, enable, 0);
  }

  lemma {:induction false} IdsSurvive(vd: VhostDevice, vring: nat, enable: bool, i: nat)
    requires |vd.qp| == MAX_QUEUE_PAIRS && vd.nofQueuePairs <= MAX_QUEUE_PAIRS
    ensures var r := SetFrom(vd, vring, enable, i);
      forall k | 0 <= k < MAX_QUEUE_PAIRS :: r.qp[k].rxqId == vd.qp[k].rxqId && r.qp[k].txqId == vd.qp[k].txqId
    decreases vd.nofQueuePairs - i
  {
    if i < vd.nofQueuePairs && vd.qp[i].rxqId != vring && vd.qp[i].txqId != vring {
      IdsSurvive(vd, vring, enable, i + 1);
    }
  }

  class ConfigManager {
    var pmap: Table

    ghost predicate Valid()
      reads this
    {
      ShapedTable(pmap)
    }

    constructor ()
      ensures Valid() && pmap == RunCalls([])
    {
      pmap := map[];
    }

    method InitVhostDevice(port: int, vid: int, pairs: int)
      requires Valid() && pairs <= MAX_QUEUE_PAIRS
      modifies this
      ensures Valid() && pmap == Apply(old(pmap), InitDevice(port, vid, pairs))
    {
      var pm := if port in pmap then pmap[port] else Fresh();
      ghost var was := pm;
      pm := pm.(vd := pm.vd.(vid := vid, nofQueuePairs := pairs, ready := true));
      var i := 0;
      while i < pairs
        invariant 0 <= i && i <= (if pairs < 0 then 0 else pairs) && Shaped(pm)
        invariant pm.vd == was.vd.(vid := vid, nofQueuePairs := pairs, ready := true, qp := pm.vd.qp)
        invariant pm.pd == was.pd.(qp := pm.pd.qp)
        invariant forall k | 0 <= k < MAX_QUEUE_PAIRS ::
                    && pm.vd.qp[k] == (if k < i then FreshPair(k) else was.vd.qp[k])
                    && pm.pd.qp[k] == (if k < i then PortPair(-1, -1) else was.pd.qp[k])
      {
        pm := PortMap(pm.vd.(qp := pm.vd.qp[i := FreshPair(i)]), pm.pd.(qp := pm.pd.qp[i := PortPair(-1, -1)]));
        i := i + 1;
      }
      assert pm.vd.qp == InitOf(was, vid, pairs).vd.qp && pm.pd.qp == InitOf(was, vid, pairs).pd.qp;
      pmap := pmap[port := pm];
    }

    method SetQueueState(port: int, vring: nat, enable: bool)
      requires Valid()
      modifies this
      ensures Valid() && pmap == Apply(old(pmap), SetState(port, vring, enable))
    {
      if port !in pmap {
        return;
      }
      var vd := pmap[port].vd;
      var i := 0;
      while i < vd.nofQueuePairs
        invariant 0 <= i && SetFrom(vd, vring, enable, 0) == SetFrom(vd, vring, enable, i)
        invariant pmap == old(pmap)
      {
        if vd.qp[i].rxqId == vring {
          vd := vd.(qp := vd.qp[i := vd.qp[i].(rxEnabled := enable)]);
          pmap := pmap[port := pmap[port].(vd := vd)];
          return;
        }
        if vd.qp[i].txqId == vring {
          vd := vd.(qp := vd.qp[i := vd.qp[i].(txEnabled := enable)]);
          pmap := pmap[port := pmap[port].(vd := vd)];
          return;
        }
        i := i + 1;
      }
      assert pmap == pmap[port := pmap[port].(vd := vd)];
    }

    method AssignPortSocket(port: int, qpIdx: int, fd: int)
      requires Valid() && qpIdx >= 0
      modifies this
      ensures Valid() && pmap == Apply(old(pmap), AssignSocket(port, qpIdx, fd))
    {
      if port in pmap && qpIdx < MAX_QUEUE_PAIRS {
        var pm := pmap[port];
        pm := pm.(pd := pm.pd.(qp := pm.pd.qp[qpIdx := PortPair(fd, fd)]));
        if qpIdx == 0 {
          pm := pm.(vd := pm.vd.(ready := true));
        }
        pmap := pmap[port := pm];
      }
    }

    method AssignControlPath(port: int, fd: int)
      requires Valid()
      modifies this
      ensures Valid() && pmap == Apply(old(pmap), AssignControl(port, fd))
    {
      if port in pmap {
        var pm := pmap[port];
        pmap := pmap[port := PortMap(pm.vd.(ctlqId := Wrap16(fd)), pm.pd.(ctlqId := fd))];
      }
    }
  }
}
