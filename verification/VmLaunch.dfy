/** The launcher's MAC table and the per-VM allocation of addresses, CPUs, displays and ports. */
module VmLaunch {
  import opened Words
  import opened Wrappers
  import opened Odometer

  const TABLE_SIZE: nat := 1024

  // ----- rendering of an address -----

  function HexDigit(d: nat): char
    requires d < 16
  {
    "0123456789abcdef"[d]
  }

  lemma HexDigitInjective(d: nat, e: nat)
    requires d < 16 && e < 16 && HexDigit(d) == HexDigit(e)
    ensures d == e
  {
    var s := "0123456789abcdef";
    assert forall j, k | 0 <= j < k < 16 :: s[j] != s[k];
  }

  function HexByte(b: Byte): (r: string)
    ensures |r| == 2
  {
    [HexDigit(b / 16), HexDigit(b % 16)]
  }

  /** The bytes in hexadecimal, each after a separator. */
  function HexBytes(a: seq<Byte>): (r: string)
    ensures |r| == 3 * |a|
  {
    if a == [] then "" else HexBytes(a[..|a| - 1]) + ":" + HexByte(a[|a| - 1])
  }

  /** Quoted, colon-separated, as in the table. */
  function Render(a: seq<Byte>): string {
    "\"" + (if a == [] then "" else HexBytes(a)[1..]) + "\""
  }

  lemma LastThree(x: string, y: string)
    requires |y| == 2
    ensures var z := x + ":" + y; z[..|x|] == x && z[|x| + 1] == y[0] && z[|x| + 2] == y[1]
  {
  }

  /** A rendering ends with the two digits of the last byte. */
  lemma HexBytesParts(a: seq<Byte>)
    requires a != []
    ensures var n, x := |a| - 1, HexBytes(a);
      && x[..3 * n] == HexBytes(a[..n])
      && x[3 * n + 1] == HexDigit(a[n] / 16) && x[3 * n + 2] == HexDigit(a[n] % 16)
  {
    hide HexDigit;
    var n := |a| - 1;
    LastThree(HexBytes(a[..n]), HexByte(a[n]));
  }

  lemma SameByte(d: Byte, e: Byte)
    requires HexDigit(d / 16) == HexDigit(e / 16) && HexDigit(d % 16) == HexDigit(e % 16)
    ensures d == e
  {
    HexDigitInjective(d / 16, e / 16);
    HexDigitInjective(d % 16, e % 16);
  }

  lemma {:induction false} HexBytesInjective(a: seq<Byte>, b: seq<Byte>)
    requires |a| == |b| && HexBytes(a) == HexBytes(b)
    ensures a == b
  {
    hide HexBytes, HexDigit;
    if a != [] {
      var n := |a| - 1;
      HexBytesParts(a);
      HexBytesParts(b);
      HexBytesInjective(a[..n], b[..n]);
      SameByte(a[n], b[n]);
      assert a == a[..n] + [a[n]] && b == b[..n] + [b[n]];
    }
  }

  /** Different addresses of one width render differently. */
  lemma RenderInjective(a: seq<Byte>, b: seq<Byte>)
    requires |a| == |b| && Render(a) == Render(b)
    ensures a == b
  {
    if a != [] {
      var x, y := HexBytes(a), HexBytes(b);
      assert Render(a)[1..|Render(a)| - 1] == x[1..];
      assert Render(b)[1..|Render(b)| - 1] == y[1..];
      HexStartsWithColon(a);
      HexStartsWithColon(b);
      assert x == [x[0]] + x[1..] && y == [y[0]] + y[1..];
      HexBytesInjective(a, b);
    }
  }

  lemma {:induction false} HexStartsWithColon(a: seq<Byte>)
    requires a != []
    ensures HexBytes(a)[0] == ':'
  {
    if |a| > 1 {
      HexStartsWithColon(a[..|a| - 1]);
    }
  }

  // ----- the table -----

  /** Entry k of the table: the initial address after k + 1 increments. */
  function MacEntry(k: nat): (r: string)
    requires k < TABLE_SIZE
  {
    LowMac(k + 1);
    Render(Iterate(InitialMac(), k + 1).value.addr)
  }

  lemma MacEntriesDiffer(j: nat, k: nat)
    requires j < k < TABLE_SIZE
    ensures MacEntry(j) != MacEntry(k)
  {
    LowMac(j + 1);
    LowMac(k + 1);
    IterateIsInjective(InitialMac(), j + 1, k + 1);
    hide Iterate, Render;
    var a, b := Iterate(InitialMac(), j + 1).value.addr, Iterate(InitialMac(), k + 1).value.addr;
    if Render(a) == Render(b) {
      RenderInjective(a, b);
    }
  }

  /** A hexadecimal digit by its place in the alphabet. */
  function DigitChar(d: nat): char
    requires d < 16
  {
    if d < 10 then ('0' as int + d) as char else ('a' as int + (d - 10)) as char
  }

  lemma HexDigitIsChar(d: nat)
    requires d < 16
    ensures HexDigit(d) == DigitChar(d)
  {
    var s := "0123456789abcdef";
    assert s[0] == '0' && s[1] == '1' && s[2] == '2' && s[3] == '3' && s[4] == '4' && s[5] == '5' && s[6] == '6';
    assert s[7] == '7' && s[8] == '8' && s[9] == '9' && s[10] == 'a' && s[11] == 'b' && s[12] == 'c' && s[13] == 'd';
    assert s[14] == 'e' && s[15] == 'f';
  }

  /** Address number n of the launcher, written out. */
  function MacText(n: nat): string
    requires n < 0x1_0000
  {
    "\"00:60:2f:00:" + [DigitChar(n / 4096), DigitChar(n / 256 % 16)] + ":"
    + [DigitChar(n / 16 % 16), DigitChar(n % 16)] + "\""
  }

  lemma HexAppend(a: seq<Byte>, b: Byte)
    ensures HexBytes(a + [b]) == HexBytes(a) + ":" + [DigitChar(b / 16), DigitChar(b % 16)]
  {
    HexDigitIsChar(b / 16);
    HexDigitIsChar(b % 16);
    hide HexDigit, DigitChar;
    assert (a + [b])[..|a|] == a;
  }

  lemma HexPrefix()
    ensures HexBytes([0x00, 0x60]) == ":00:60"
    ensures HexBytes([0x00, 0x60, 0x2f, 0x00]) == ":00:60:2f:00"
  {
    FixedDigits();
    hide HexBytes, DigitChar;
    HexAppend([], 0x00);
    assert [] + [0x00] == [0x00];
    assert HexBytes([0x00]) == ":00";
    HexAppend([0x00], 0x60);
    assert [0x00] + [0x60] == [0x00, 0x60];
    HexAppend([0x00, 0x60], 0x2f);
    assert [0x00, 0x60] + [0x2f] == [0x00, 0x60, 0x2f];
    assert HexBytes([0x00, 0x60, 0x2f]) == ":00:60:2f";
    HexAppend([0x00, 0x60, 0x2f], 0x00);
    assert [0x00, 0x60, 0x2f] + [0x00] == [0x00, 0x60, 0x2f, 0x00];
  }

  lemma RenderMac(mid: Byte, lo: Byte)
    ensures Render(MacBytes(0, mid, lo))
         == "\"00:60:2f:00:" + [DigitChar(mid / 16), DigitChar(mid % 16)] + ":"
            + [DigitChar(lo / 16), DigitChar(lo % 16)] + "\""
  {
    hide HexBytes, DigitChar;
    var a4 := [0x00, 0x60, 0x2f, 0x00];
    HexPrefix();
    HexAppend(a4, mid);
    HexAppend(a4 + [mid], lo);
    assert a4 + [mid] + [lo] == MacBytes(0, mid, lo);
    var x, y := [DigitChar(mid / 16), DigitChar(mid % 16)], [DigitChar(lo / 16), DigitChar(lo % 16)];
    Requoted(HexBytes(MacBytes(0, mid, lo)), x, y);
  }

  lemma Requoted(text: string, x: string, y: string)
    requires text == ":00:60:2f:00" + ":" + x + ":" + y
    ensures "\"" + text[1..] + "\"" == "\"00:60:2f:00:" + x + ":" + y + "\""
  {
    assert ":00:60:2f:00"[1..] == "00:60:2f:00";
    assert text[1..] == "00:60:2f:00" + ":" + x + ":" + y;
    assert "00:60:2f:00" + ":" == "00:60:2f:00:";
    assert "\"" + "00:60:2f:00:" == "\"00:60:2f:00:";
  }

  lemma FixedDigits()
    ensures DigitChar(0) == '0' && DigitChar(2) == '2' && DigitChar(6) == '6' && DigitChar(15) == 'f'
    ensures HexBytes([]) == ""
  {
  }

  lemma FourDigits(n: nat)
    ensures n / 256 / 16 == n / 4096 && n % 256 / 16 == n / 16 % 16 && n % 256 % 16 == n % 16
  {
  }

  /** Entry k of the table, character by character. */
  lemma MacEntryIsText(k: nat)
    requires k < 1024
    ensures MacEntry(k) == MacText(k + 1)
  {
    var n := k + 1;
    hide Render, Iterate, DigitChar;
    LowMac(n);
    RenderMac(n / 256, n % 256);
    FourDigits(n);
    hide MacBytes;
  }

  method Pregenerate() returns (table: seq<string>)
    ensures |table| == 1024
    ensures forall k | 0 <= k < TABLE_SIZE :: table[k] == MacEntry(k)
  {
    hide Iterate, Render;
    var init := InitialMac();
    var addr := new Byte[6](k requires 0 <= k < 6 => init.addr[k]);
    assert addr[..] == init.addr;
    var parent: nat := init.parent;
    table := [];
    IterateZero();
    for i := 0 to TABLE_SIZE
      invariant |table| == i && parent < 5
      invariant Iterate(init, i) == Some(Odo(addr[..], 5, parent))
      invariant forall k | 0 <= k < i :: table[k] == MacEntry(k)
    {
      LowMac(i);
      LowMac(i + 1);
      IterateStep(init, i, Odo(addr[..], 5, parent));
      parent := IncrInPlace(addr, 5, parent);
      table := table + [Render(addr[..])];
    }
  }

  lemma IterateZero()
    ensures Iterate(InitialMac(), 0) == Some(InitialMac())
  {
  }

  // ----- allocation -----

  datatype Vm = Vm(index: nat, pin: int, smp: int, display: int, telnet: int, mgmt: string, ports: seq<string>)

  function Positive(n: int): nat {
    if n < 0 then 0 else n
  }

  /** Ports of the first k machines. */
  function PortsBefore(ports: seq<int>, k: nat): nat
    requires k <= |ports|
  {
    if k == 0 then 0 else PortsBefore(ports, k - 1) + Positive(ports[k - 1])
  }

  /** The pinning start after n ports; -1 means no pinning. */
  function PinAfter(start: int, n: nat): int {
    if n == 0 then start
    else
      var p := PinAfter(start, n - 1);
      if p == -1 then -1 else p + 2
  }

  lemma {:induction false} PinAfterStart(start: int, n: nat)
    requires start >= 0 || start % 2 == 0
    ensures PinAfter(start, n) == start + 2 * n
  {
    if n > 0 {
      PinAfterStart(start, n - 1);
    }
  }

  lemma {:induction false} PinFreezes(start: int, n: nat)
    requires start < 0 && start % 2 == 1
    ensures PinAfter(start, n) == if start + 2 * n < -1 then start + 2 * n else -1
  {
    if n > 0 {
      PinFreezes(start, n - 1);
    }
  }

  /** Pinning advances by two CPUs per port exactly for starts that never reach the sentinel. */
  lemma PinIsLinearExactly(start: int)
    ensures (forall n: nat :: PinAfter(start, n) == start + 2 * n) <==> start >= 0 || start % 2 == 0
  {
    if start >= 0 || start % 2 == 0 {
      forall n: nat
        ensures PinAfter(start, n) == start + 2 * n
      {
        PinAfterStart(start, n);
      }
    } else {
      PinFreezes(start, -start);
      assert PinAfter(start, -start) != start + 2 * -start;
    }
  }

  /** The table covers machine k and its ports. */
  predicate Covered(table: seq<string>, ports: seq<int>, k: nat) {
    k < |ports| && |ports| + PortsBefore(ports, k + 1) <= |table|
  }

  /** The machine the launcher starts as number k. */
  function VmAt(table: seq<string>, ports: seq<int>, pin: int, display: int, telnet: int, k: nat): Vm
    requires Covered(table, ports, k)
  {
    var first := |ports| + PortsBefore(ports, k);
    Vm(k, PinAfter(pin, PortsBefore(ports, k)), ports[k] * 2, display + k, 8900 + telnet + k, table[k],
       table[first..first + Positive(ports[k])])
  }

  lemma {:induction false} PortsGrow(ports: seq<int>, j: nat, k: nat)
    requires j <= k <= |ports|
    ensures PortsBefore(ports, j) <= PortsBefore(ports, k)
    decreases k - j
  {
    if j < k {
      PortsGrow(ports, j, k - 1);
    }
  }

  /** The two port loops of one machine: the pinning start and the port addresses advance. */
  method AllocatePorts(table: seq<string>, count: int, pin: int, idxPort: nat)
    returns (macs: Option<seq<string>>, pin': int, idxPort': nat)
    ensures pin' == PinAfter(pin, Positive(count))
    ensures macs.Some? <==> count <= 0 || idxPort + count <= |table|
    ensures macs.Some? ==>
              && idxPort' == idxPort + Positive(count)
              && (idxPort' <= |table| ==> macs.value == table[idxPort..idxPort'])
    ensures macs.Some? && count <= 0 ==> macs.value == []
  {
    pin', idxPort' := pin, idxPort;
    var j := 0;
    while j < count
      invariant 0 <= j <= Positive(count) && pin' == PinAfter(pin, j)
    {
      if pin' != -1 {
        pin' := pin' + 2;
      }
      j := j + 1;
    }
    var got: seq<string> := [];
    j := 0;
    while j < count
      invariant 0 <= j <= Positive(count) && idxPort' == idxPort + j
      invariant j > 0 ==> idxPort' <= |table|
      invariant if idxPort' <= |table| then got == table[idxPort..idxPort'] else got == []
    {
      if idxPort' >= |table| {
        return None, pin', idxPort';
      }
      got := got + [table[idxPort']];
      idxPort' := idxPort' + 1;
      j := j + 1;
    }
    macs := Some(got);
  }

  /**
   The launch loop. It completes exactly when the table covers one address per machine and one
   per port; machine k is then the one described by VmAt.
   */
  method Launch(table: seq<string>, ports: seq<int>, pin: int, display: int, telnet: int) returns (vms: Option<seq<Vm>>)
    ensures vms.Some? <==> |ports| + PortsBefore(ports, |ports|) <= |table|
    ensures vms.Some? ==> |vms.value| == |ports|
    ensures vms.Some? ==> forall k | 0 <= k < |ports| ::
              Covered(table, ports, k) && vms.value[k] == VmAt(table, ports, pin, display, telnet, k)
    ensures vms.Some? ==> forall k | 0 <= k < |ports| ::
              && vms.value[k].index == k && vms.value[k].mgmt == table[k]
              && vms.value[k].smp == 2 * ports[k] && |vms.value[k].ports| == Positive(ports[k])
              && vms.value[k].display == display + k && vms.value[k].telnet == 8900 + telnet + k
  {
    var pinNow, displayNow, telnetNow := pin, display, telnet;
    var idxLm: nat, idxPort: nat := 0, |ports|;
    var got: seq<Vm> := [];
    for i := 0 to |ports|
      invariant idxLm == i == |got| && idxPort == |ports| + PortsBefore(ports, i)
      invariant PortsBefore(ports, i) > 0 ==> idxPort <= |table|
      invariant i <= |table|
      invariant pinNow == PinAfter(pin, PortsBefore(ports, i)) && displayNow == display + i && telnetNow == telnet + i
      invariant forall k | 0 <= k < i ::
                  Covered(table, ports, k) ==> got[k] == VmAt(table, ports, pin, display, telnet, k)
    {
      PortsGrow(ports, i + 1, |ports|);
      if idxLm >= |table| {
        return None;
      }
      var mgmt := table[idxLm];
      idxLm := idxLm + 1;
      var smp, pinHere := ports[i] * 2, pinNow;
      PinCompose(pin, PortsBefore(ports, i), Positive(ports[i]));
      var macs;
      macs, pinNow, idxPort := AllocatePorts(table, ports[i], pinNow, idxPort);
      if macs.None? {
        return None;
      }
      got := got + [Vm(i, pinHere, smp, displayNow, 8900 + telnetNow, mgmt, macs.value)];
      displayNow, telnetNow := displayNow + 1, telnetNow + 1;
    }
    AllCovered(table, ports);
    vms := Some(got);
  }

  lemma {:induction false} PinCompose(start: int, a: nat, b: nat)
    ensures PinAfter(PinAfter(start, a), b) == PinAfter(start, a + b)
    decreases b
  {
    if b > 0 {
      PinCompose(start, a, b - 1);
    }
  }

  lemma AllCovered(table: seq<string>, ports: seq<int>)
    requires |ports| + PortsBefore(ports, |ports|) <= |table|
    ensures forall k | 0 <= k < |ports| :: Covered(table, ports, k)
  {
    forall k | 0 <= k < |ports|
      ensures Covered(table, ports, k)
    {
      PortsGrow(ports, k + 1, |ports|);
    }
  }

  // ----- no two machines share a resource -----

  ghost predicate DistinctTable(table: seq<string>) {
    forall j, k | 0 <= j < k < |table| :: table[j] != table[k]
  }

  lemma GeneratedTableIsDistinct(table: seq<string>)
    requires |table| == TABLE_SIZE && forall k | 0 <= k < TABLE_SIZE :: table[k] == MacEntry(k)
    ensures DistinctTable(table)
  {
    hide MacEntry;
    forall j, k | 0 <= j < k < |table|
      ensures table[j] != table[k]
    {
      MacEntriesDiffer(j, k);
    }
  }

  /** Port addresses of machine j all come before those of a later machine. */
  lemma {:induction false} PortRangesOrdered(ports: seq<int>, j: nat, k: nat)
    requires j < k < |ports|
    ensures PortsBefore(ports, j) + Positive(ports[j]) <= PortsBefore(ports, k)
  {
    assert PortsBefore(ports, j + 1) == PortsBefore(ports, j) + Positive(ports[j]);
    hide PortsBefore;
    PortsGrow(ports, j + 1, k);
  }

  /** The table index behind port a of machine k. */
  lemma PortComesFrom(table: seq<string>, ports: seq<int>, pin: int, display: int, telnet: int, k: nat, a: nat)
    requires Covered(table, ports, k) && a < |VmAt(table, ports, pin, display, telnet, k).ports|
    ensures var i := |ports| + PortsBefore(ports, k) + a;
      i < |ports| + PortsBefore(ports, k) + Positive(ports[k]) <= |table|
      && VmAt(table, ports, pin, display, telnet, k).ports[a] == table[i]
  {
  }

  /** Management and port addresses are pairwise distinct across all machines. */
  lemma MacsAreDistinct(table: seq<string>, ports: seq<int>, pin: int, display: int, telnet: int, j: nat, k: nat)
    requires DistinctTable(table) && Covered(table, ports, j) && Covered(table, ports, k)
    ensures var v, w := VmAt(table, ports, pin, display, telnet, j), VmAt(table, ports, pin, display, telnet, k);
      && (v.mgmt == w.mgmt ==> j == k)
      && (forall b | 0 <= b < |w.ports| :: v.mgmt != w.ports[b])
      && (forall a, b | 0 <= a < |v.ports| && 0 <= b < |w.ports| && v.ports[a] == w.ports[b] :: j == k && a == b)
  {
    var v, w := VmAt(table, ports, pin, display, telnet, j), VmAt(table, ports, pin, display, telnet, k);
    forall b | 0 <= b < |w.ports|
      ensures v.mgmt != w.ports[b]
    {
      PortComesFrom(table, ports, pin, display, telnet, k, b);
    }
    forall a, b | 0 <= a < |v.ports| && 0 <= b < |w.ports| && v.ports[a] == w.ports[b]
      ensures j == k && a == b
    {
      PortComesFrom(table, ports, pin, display, telnet, j, a);
      PortComesFrom(table, ports, pin, display, telnet, k, b);
      if j < k {
        PortRangesOrdered(ports, j, k);
      } else if k < j {
        PortRangesOrdered(ports, k, j);
      }
    }
  }

  /** With pinning on, machine k's CPUs start where those of machine k - 1 end; displays and consoles differ. */
  lemma CpusAreConsecutive(table: seq<string>, ports: seq<int>, pin: int, display: int, telnet: int, j: nat, k: nat)
    requires Covered(table, ports, j) && Covered(table, ports, k) && j < k && pin >= 0
    requires forall i | 0 <= i < |ports| :: ports[i] >= 0
    ensures var v, w := VmAt(table, ports, pin, display, telnet, j), VmAt(table, ports, pin, display, telnet, k);
      && v.pin >= 0 && v.pin + v.smp <= w.pin
      && (k == j + 1 ==> v.pin + v.smp == w.pin)
      && v.display < w.display && v.telnet < w.telnet
  {
    PinAfterStart(pin, PortsBefore(ports, j));
    PinAfterStart(pin, PortsBefore(ports, k));
    PortRangesOrdered(ports, j, k);
  }

  /** The port list: the same count for every machine, or an explicit list that must match the number of machines. */
  function PortList(numLm: int, perLm: int, explicit: Option<seq<int>>): Option<seq<int>> {
    var list := match explicit
                case Some(l) => l
                case None => seq(Positive(numLm), _ => perLm);
    if |list| == numLm then Some(list) else None
  }

  lemma {:induction false} SamePorts(ports: seq<int>, n: int, k: nat)
    requires k <= |ports| && forall i | 0 <= i < k :: ports[i] == n
    ensures PortsBefore(ports, k) == k * Positive(n)
  {
    if k > 0 {
      SamePorts(ports, n, k - 1);
      assert k * Positive(n) == (k - 1) * Positive(n) + Positive(n);
    }
  }

  /** Ports of the machines before machine k. */
  function PortsAhead(perLm: int, explicit: Option<seq<int>>, k: nat): nat
    requires explicit.Some? ==> k <= |explicit.value|
  {
    if explicit.Some? then PortsBefore(explicit.value, k) else k * Positive(perLm)
  }

  lemma AheadOfAll(perLm: int, explicit: Option<seq<int>>, k: nat)
    requires explicit.Some? ==> k <= |explicit.value|
    ensures explicit.None? ==> PortsAhead(perLm, explicit, k) == k * Positive(perLm)
    ensures explicit.Some? ==> PortsAhead(perLm, explicit, k) == PortsBefore(explicit.value, k)
  {
  }

  lemma AheadIsBefore(numLm: int, perLm: int, explicit: Option<seq<int>>, k: nat)
    requires var list := PortList(numLm, perLm, explicit); list.Some? && k <= |list.value|
    ensures explicit.Some? ==> k <= |explicit.value|
    ensures PortsBefore(PortList(numLm, perLm, explicit).value, k) == PortsAhead(perLm, explicit, k)
  {
    if explicit.None? {
      SamePorts(PortList(numLm, perLm, explicit).value, perLm, k);
    }
  }

  predicate NoNegative(ports: seq<int>) {
    forall i | 0 <= i < |ports| :: ports[i] >= 0
  }

  /** The CPUs of w come after those of v, and right after them if the machines are neighbours. */
  predicate CpusFollow(v: Vm, w: Vm, neighbours: bool) {
    v.pin >= 0 && v.pin + v.smp <= w.pin && (neighbours ==> v.pin + v.smp == w.pin)
  }

  /** No port address of one machine occurs at another place of either. */
  predicate DistinctPorts(v: Vm, w: Vm, same: bool) {
    forall a, b | 0 <= a < |v.ports| && 0 <= b < |w.ports| && v.ports[a] == w.ports[b] :: same && a == b
  }

  /** Management and port addresses of the machines are pairwise distinct. */
  ghost predicate DistinctMacs(vms: seq<Vm>) {
    forall j, k | 0 <= j < |vms| && 0 <= k < |vms| ::
      && (vms[j].mgmt == vms[k].mgmt ==> j == k)
      && vms[j].mgmt !in vms[k].ports
      && DistinctPorts(vms[j], vms[k], j == k)
  }

  lemma LaunchedMacsDiffer(table: seq<string>, ports: seq<int>, pin: int, display: int, telnet: int, vms: seq<Vm>)
    requires DistinctTable(table) && |vms| == |ports|
    requires forall k | 0 <= k < |ports| ::
               Covered(table, ports, k) && vms[k] == VmAt(table, ports, pin, display, telnet, k)
    ensures DistinctMacs(vms)
  {
    hide DistinctTable;
    forall j, k | 0 <= j < |vms| && 0 <= k < |vms|
      ensures vms[j].mgmt == vms[k].mgmt ==> j == k
      ensures vms[j].mgmt !in vms[k].ports
      ensures DistinctPorts(vms[j], vms[k], j == k)
    {
      MacsAreDistinct(table, ports, pin, display, telnet, j, k);
    }
  }

  /**
   The whole launch. Without an explicit list every machine gets perLm ports; with one, machine k
   gets entry k, and there must be one entry per machine. It succeeds exactly when the table of 1024
   addresses covers all machines and ports.
   */
  method Bringup(numLm: int, perLm: int, explicit: Option<seq<int>>, pin: int, display: int, telnet: int)
    returns (vms: Option<seq<Vm>>)
    ensures explicit.None? ==> (vms.Some? <==> numLm >= 0 && numLm + numLm * Positive(perLm) <= 1024)
    ensures explicit.Some? ==>
              (vms.Some? <==> && |explicit.value| == numLm
                              && numLm + PortsBefore(explicit.value, |explicit.value|) <= 1024)
    ensures vms.Some? ==> |vms.value| == numLm && DistinctMacs(vms.value)
    ensures vms.Some? ==> forall k | 0 <= k < |vms.value| ::
              AsOrdered(vms.value[k], k, if explicit.Some? then explicit.value[k] else perLm, display, telnet,
                        numLm + PortsAhead(perLm, explicit, k))
    ensures vms.Some? && pin == -1 ==> forall k | 0 <= k < |vms.value| :: vms.value[k].pin == -1
    ensures vms.Some? && pin >= 0 && (if explicit.Some? then NoNegative(explicit.value) else perLm >= 0) ==>
              && (vms.value != [] ==> vms.value[0].pin == pin)
              && forall j, k | 0 <= j < k < |vms.value| :: CpusFollow(vms.value[j], vms.value[k], k == j + 1)
  {
    hide MacEntry, MacText, DistinctTable, PinAfter, DistinctMacs, AsOrdered, VmAt, PortsAhead, PortsBefore;
    var table := Pregenerate();
    GeneratedTableIsDistinct(table);
    var list := PortList(numLm, perLm, explicit);
    if list.None? {
      return None;
    }
    AheadIsBefore(numLm, perLm, explicit, |list.value|);
    AheadOfAll(perLm, explicit, |list.value|);
    vms := Launch(table, list.value, pin, display, telnet);
    if vms.Some? {
      LaunchedMacsDiffer(table, list.value, pin, display, telnet, vms.value);
      forall k | 0 <= k < |vms.value|
        ensures AsOrdered(vms.value[k], k, list.value[k], display, telnet, numLm + PortsAhead(perLm, explicit, k))
      {
        assert Covered(table, list.value, k);
        IsAsOrdered(table, list.value, pin, display, telnet, k);
        AheadIsBefore(numLm, perLm, explicit, k);
      }
      if pin == -1 {
        NoPinning(table, list.value, display, telnet, vms.value);
      }
      if pin >= 0 && NoNegative(list.value) {
        PinningFollows(table, list.value, pin, display, telnet, vms.value);
      }
    }
  }

  /** The port addresses are numbers first + 1, first + 2 and so on, written out. */
  predicate PortTexts(ports: seq<string>, first: nat) {
    first + |ports| <= 1024 && forall a | 0 <= a < |ports| :: ports[a] == MacText(first + a + 1)
  }

  /**
   Machine k with count ports: two CPUs a port, display and console by its number, its own address
   and its ports' addresses written out.
   */
  predicate AsOrdered(v: Vm, k: nat, count: int, display: int, telnet: int, first: nat) {
    && v.index == k && v.smp == 2 * count && |v.ports| == Positive(count)
    && v.display == display + k && v.telnet == 8900 + telnet + k
    && k < 1024 && v.mgmt == MacText(k + 1) && PortTexts(v.ports, first)
  }

  lemma IsAsOrdered(table: seq<string>, ports: seq<int>, pin: int, display: int, telnet: int, k: nat)
    requires |table| == 1024 && forall i | 0 <= i < 1024 :: table[i] == MacEntry(i)
    requires Covered(table, ports, k)
    ensures AsOrdered(VmAt(table, ports, pin, display, telnet, k), k, ports[k], display, telnet,
                      |ports| + PortsBefore(ports, k))
  {
    hide MacEntry, MacText, PinAfter;
    var first, v := |ports| + PortsBefore(ports, k), VmAt(table, ports, pin, display, telnet, k);
    MacEntryIsText(k);
    forall a | 0 <= a < |v.ports|
      ensures v.ports[a] == MacText(first + a + 1)
    {
      assert v.ports[a] == table[first + a];
      MacEntryIsText(first + a);
    }
  }

  lemma NoPinning(table: seq<string>, ports: seq<int>, display: int, telnet: int, vms: seq<Vm>)
    requires |vms| == |ports|
    requires forall k | 0 <= k < |ports| ::
               Covered(table, ports, k) && vms[k] == VmAt(table, ports, -1, display, telnet, k)
    ensures forall k | 0 <= k < |vms| :: vms[k].pin == -1
  {
    forall k | 0 <= k < |vms|
      ensures vms[k].pin == -1
    {
      PinFreezes(-1, PortsBefore(ports, k));
    }
  }

  lemma PinningFollows(table: seq<string>, ports: seq<int>, pin: int, display: int, telnet: int, vms: seq<Vm>)
    requires |vms| == |ports| && pin >= 0 && NoNegative(ports)
    requires forall k | 0 <= k < |ports| ::
               Covered(table, ports, k) && vms[k] == VmAt(table, ports, pin, display, telnet, k)
    ensures vms != [] ==> vms[0].pin == pin
    ensures forall j, k | 0 <= j < k < |vms| :: CpusFollow(vms[j], vms[k], k == j + 1)
  {
    forall j, k | 0 <= j < k < |vms|
      ensures CpusFollow(vms[j], vms[k], k == j + 1)
    {
      CpusAreConsecutive(table, ports, pin, display, telnet, j, k);
    }
  }
}
