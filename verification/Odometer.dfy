/**
 The address odometer of the VM launcher: a byte counter whose carry goes to a parent byte, the
 parent moving one byte left for good whenever it overflows.
 */
module Odometer {
  import opened Words
  import opened Wrappers

  /** The address bytes, the byte that counts, and the byte that receives its carry. */
  datatype Odo = Odo(addr: seq<Byte>, incr: nat, parent: nat)

  predicate Valid(o: Odo) {
    o.parent < o.incr == |o.addr| - 1
  }

  /** An 8-bit increment. */
  function Succ8(b: Byte): Byte {
    if b == 255 then 0 else b + 1
  }

  /** One increment; None is the write left of the first byte. */
  function Incr(o: Odo): Option<Odo>
    requires Valid(o)
  {
    var a, i, p := o.addr, o.incr, o.parent;
    if a[i] == 255 then
      if a[p] == 255 then
        if p == 0 then None
        else
          var q := p - 1;
          Some(Odo(a[p := 0][q := Succ8(a[q])][i := 0], i, q))
      else Some(Odo(a[p := a[p] + 1][i := 0], i, p))
    else Some(Odo(a[i := a[i] + 1], i, p))
  }

  /** The increment in place, as the launcher does it on its address buffer. */
  method IncrInPlace(addr: array<Byte>, i: nat, p: nat) returns (p': nat)
    requires p < i == addr.Length - 1
    requires Incr(Odo(addr[..], i, p)).Some?
    modifies addr
    ensures Incr(Odo(old(addr[..]), i, p)) == Some(Odo(addr[..], i, p'))
  {
    ghost var a := addr[..];
    p' := p;
    if addr[i] == 255 {
      if addr[p'] == 255 {
        addr[p'] := 0;
        p' := p' - 1;
      }
      addr[p'] := Succ8(addr[p']);
      addr[i] := 0;
    } else {
      addr[i] := addr[i] + 1;
    }
    assert addr[..] == Incr(Odo(a, i, p)).value.addr;
  }

  // ----- the address as a number -----

  function Pow256(k: nat): (r: nat)
    ensures r > 0
  {
    if k == 0 then 1 else 256 * Pow256(k - 1)
  }

  /** Big-endian value. */
  function Value(a: seq<Byte>): nat {
    if a == [] then 0 else Value(a[..|a| - 1]) * 256 + a[|a| - 1]
  }

  lemma {:induction false} ValueUpdate(a: seq<Byte>, k: nat, b: Byte)
    requires k < |a|
    ensures Value(a[k := b]) == Value(a) + (b - a[k]) * Pow256(|a| - 1 - k)
    decreases |a|
  {
    var init := a[..|a| - 1];
    if k == |a| - 1 {
      assert a[k := b][..|a| - 1] == init;
      assert Pow256(0) == 1;
    } else {
      assert a[k := b][..|a| - 1] == init[k := b];
      ValueUpdate(init, k, b);
      var d, w := b - a[k], Pow256(|init| - 1 - k);
      assert Pow256(|a| - 1 - k) == 256 * w;
      assert (d * w) * 256 == d * (256 * w);
    }
  }

  /** The carry has somewhere to go: the parent, or a byte left of it that does not overflow in turn. */
  predicate CarryFits(o: Odo)
    requires Valid(o)
  {
    o.addr[o.incr] < 255 || o.addr[o.parent] < 255 || (o.parent > 0 && o.addr[o.parent - 1] < 255)
  }

  lemma PowGrows(k: nat)
    requires k > 0
    ensures Pow256(k) >= 256
    ensures Pow256(k) == 256 <==> k == 1
  {
    if k > 1 {
      assert Pow256(k - 1) == 256 * Pow256(k - 2);
    }
  }

  /** The value after a carry from byte i into byte p. */
  lemma CarryAdds(a: seq<Byte>, p: nat, i: nat)
    requires p < i == |a| - 1 && a[p] < 255 && a[i] == 255
    ensures Value(a[p := a[p] + 1][i := 0]) == Value(a) + Pow256(i - p) - 255
  {
    hide Value;
    ValueUpdate(a, p, a[p] + 1);
    ValueUpdate(a[p := a[p] + 1], i, 0);
    assert Pow256(0) == 1;
  }

  /** Clearing a full parent and carrying into its left neighbour is worth the parent's weight. */
  lemma MoveAdds(a: seq<Byte>, p: nat)
    requires 0 < p < |a| && a[p] == 255 && a[p - 1] < 255
    ensures Value(a[p := 0][p - 1 := a[p - 1] + 1]) == Value(a) + Pow256(|a| - 1 - p)
  {
    hide Value;
    var w := Pow256(|a| - 1 - p);
    ValueUpdate(a, p, 0);
    ValueUpdate(a[p := 0], p - 1, a[p - 1] + 1);
    assert Pow256(|a| - 1 - (p - 1)) == 256 * w;
  }

  /** What one increment adds: one, or a carry into the parent byte minus the counting byte. */
  lemma IncrAdds(o: Odo)
    requires Valid(o) && CarryFits(o)
    ensures Incr(o).Some? && Valid(Incr(o).value)
    ensures var w := Pow256(o.incr - o.parent);
      Value(Incr(o).value.addr) - Value(o.addr) == if o.addr[o.incr] < 255 then 1 else w - 255
  {
    hide Value;
    var a, i, p := o.addr, o.incr, o.parent;
    if a[i] < 255 {
      ValueUpdate(a, i, a[i] + 1);
      assert Pow256(0) == 1;
    } else if a[p] < 255 {
      CarryAdds(a, p, i);
    } else {
      var c := a[p := 0][p - 1 := a[p - 1] + 1];
      MoveAdds(a, p);
      ValueUpdate(c, i, 0);
      assert Pow256(0) == 1;
    }
  }

  lemma ClearLowers(a: seq<Byte>, k: nat)
    requires k < |a| && a[k] == 255
    ensures Value(a[k := 0]) < Value(a)
  {
    hide Value;
    ValueUpdate(a, k, 0);
    assert (0 - a[k]) * Pow256(|a| - 1 - k) == -255 * Pow256(|a| - 1 - k);
  }

  /** An increment raises the address exactly when its carry fits. */
  lemma IncrRaisesExactly(o: Odo)
    requires Valid(o)
    ensures (Incr(o).Some? && Value(Incr(o).value.addr) > Value(o.addr)) <==> CarryFits(o)
  {
    hide Value, Pow256;
    if CarryFits(o) {
      IncrAdds(o);
      PowGrows(o.incr - o.parent);
    } else if o.parent > 0 {
      var a, i, p := o.addr, o.incr, o.parent;
      ClearLowers(a, p);
      ClearLowers(a[p := 0], p - 1);
      ClearLowers(a[p := 0][p - 1 := 0], i);
    }
  }

  /** It adds exactly one unless the parent has moved away from the counting byte's neighbour. */
  lemma IncrAddsOneExactly(o: Odo)
    requires Valid(o) && CarryFits(o)
    ensures Value(Incr(o).value.addr) == Value(o.addr) + 1
            <==> o.addr[o.incr] < 255 || o.parent + 1 == o.incr
  {
    hide Value, Incr, Pow256;
    IncrAdds(o);
    PowGrows(o.incr - o.parent);
  }

  // ----- repeated increments -----

  /** n increments; None once a carry did not fit. */
  function Iterate(o: Odo, n: nat): (r: Option<Odo>)
    requires Valid(o)
    ensures r.Some? ==> Valid(r.value)
  {
    if n == 0 then Some(o)
    else
      match Iterate(o, n - 1)
      case None => None
      case Some(x) => if CarryFits(x) then Incr(x) else None
  }

  /** For any width: while the carries fit, later addresses are larger, by at least one a step. */
  lemma {:induction false} IterateIncreases(o: Odo, m: nat, n: nat)
    requires Valid(o) && m <= n && Iterate(o, n).Some?
    ensures Iterate(o, m).Some?
    ensures Value(Iterate(o, m).value.addr) + (n - m) <= Value(Iterate(o, n).value.addr)
    decreases n - m
  {
    if m < n {
      hide Value, Incr, Pow256;
      IterateIncreases(o, m, n - 1);
      var x := Iterate(o, n - 1).value;
      IncrAdds(x);
      PowGrows(x.incr - x.parent);
    }
  }

  lemma IterateStep(o: Odo, n: nat, x: Odo)
    requires Valid(o) && Iterate(o, n) == Some(x) && CarryFits(x)
    ensures Iterate(o, n + 1) == Incr(x)
  {
  }

  /** Addresses after different numbers of increments are different. */
  lemma IterateIsInjective(o: Odo, m: nat, n: nat)
    requires Valid(o) && m < n && Iterate(o, n).Some?
    ensures Iterate(o, m).Some? && Iterate(o, m).value.addr != Iterate(o, n).value.addr
  {
    IterateIncreases(o, m, n);
  }

  // ----- the MAC addresses -----

  function InitialMac(): Odo {
    Odo([0x00, 0x60, 0x2f, 0x00, 0x00, 0x00], 5, 4)
  }

  function MacBytes(hi: Byte, mid: Byte, lo: Byte): seq<Byte> {
    [0x00, 0x60, 0x2f, hi, mid, lo]
  }

  lemma MacValue(hi: Byte, mid: Byte, lo: Byte)
    ensures Value(MacBytes(hi, mid, lo)) == Value(InitialMac().addr) + hi * 65536 + mid * 256 + lo
  {
    var a := InitialMac().addr;
    var b := a[3 := hi];
    var c := b[4 := mid];
    ValueUpdate(a, 3, hi);
    ValueUpdate(b, 4, mid);
    ValueUpdate(c, 5, lo);
    assert Pow256(1) == 256 && Pow256(2) == 65536;
    assert MacBytes(hi, mid, lo) == c[5 := lo];
  }

  /** The first 65536 addresses count through the last two bytes. */
  lemma {:induction false} LowMac(n: nat)
    requires n < 65536
    ensures Iterate(InitialMac(), n) == Some(Odo(MacBytes(0, n / 256, n % 256), 5, 4))
  {
    if n > 0 {
      LowMac(n - 1);
      var m := n - 1;
      var x := Odo(MacBytes(0, m / 256, m % 256), 5, 4);
      if m % 256 == 255 {
        assert n / 256 == m / 256 + 1 && n % 256 == 0;
        assert m / 256 < 255;
        assert Incr(x).value.addr == MacBytes(0, n / 256, n % 256);
      } else {
        assert n / 256 == m / 256 && n % 256 == m % 256 + 1;
        assert Incr(x).value.addr == MacBytes(0, n / 256, n % 256);
      }
    }
  }

  /** The carry out of the fifth byte moves the parent to the fourth; the next 256 still count by one. */
  lemma {:induction false} MovedMac(m: nat)
    requires m < 256
    ensures Iterate(InitialMac(), 65536 + m) == Some(Odo(MacBytes(1, 0, m), 5, 3))
  {
    hide Iterate;
    if m == 0 {
      LowMac(65535);
      var x := Odo(MacBytes(0, 255, 255), 5, 4);
      IterateStep(InitialMac(), 65535, x);
      assert Incr(x).value.addr == MacBytes(1, 0, 0);
    } else {
      MovedMac(m - 1);
      var x := Odo(MacBytes(1, 0, m - 1), 5, 3);
      IterateStep(InitialMac(), 65536 + m - 1, x);
      assert Incr(x).value.addr == MacBytes(1, 0, m);
    }
  }

  /** From there on carries skip the fifth byte. */
  lemma SkippingMac()
    ensures Iterate(InitialMac(), 65792) == Some(Odo(MacBytes(2, 0, 0), 5, 3))
  {
    hide Iterate;
    MovedMac(255);
    var x := Odo(MacBytes(1, 0, 255), 5, 3);
    IterateStep(InitialMac(), 65791, x);
    assert Incr(x).value.addr == MacBytes(2, 0, 0);
  }

  /** The n-th address is the base plus n exactly up to n = 65791. */
  lemma MacIsBasePlusN(n: nat)
    requires Iterate(InitialMac(), n).Some?
    ensures Value(Iterate(InitialMac(), n).value.addr) == Value(InitialMac().addr) + n <==> n <= 65791
  {
    hide Iterate, Value;
    if n < 65536 {
      LowMac(n);
      MacValue(0, n / 256, n % 256);
    } else if n < 65792 {
      MovedMac(n - 65536);
      MacValue(1, 0, n - 65536);
    } else {
      SkippingMac();
      MacValue(2, 0, 0);
      IterateIncreases(InitialMac(), 65792, n);
    }
  }
}
