/** The data ports a listener hands out, one after the other and round again. */
module PortAllocator {
  import opened Basics

  const FIRST_PRIVATE_PORT := 49152
  const LAST_PORT := 65535

  datatype Ports = Ports(min: nat, max: nat, next: nat)

  /** OnAsyncListen: the two arguments in order, with defaults for zero. */
  function Listen(a: nat, b: nat): Ports {
    var low, high := if a <= b then a else b, if a <= b then b else a;
    var min := if low == 0 then FIRST_PRIVATE_PORT else low;
    Ports(min, if high == 0 then LAST_PORT else high, min)
  }

  /** The range of a listen is its two arguments in order; a zero stands for the start or the end of the
      private ports. The cursor stands at its start. */
  lemma ListenRange(a: nat, b: nat)
    ensures Listen(a, b) == Listen(b, a)
    ensures a <= b ==> Listen(a, b).min == Listen(a, b).next == if a == 0 then 49152 else a
    ensures a <= b ==> Listen(a, b).max == if b == 0 then 65535 else b
  {
  }

  /** Before a listen no port is handed out. */
  lemma NoPortBeforeListen(min: nat, max: nat)
    ensures Take(Ports(min, max, 0)) == (0, Ports(min, max, 0))
  {
  }

  /** GetAndIncrementNextAvailablePort on 32-bit fields: the port and the new state. */
  function Take(p: Ports): (nat, Ports) {
    if p.next == 0 then (0, p)
    else if p.next < p.max then (p.next + 1, p.(next := p.next + 1))
    else (p.min, p.(next := (p.min + 1) % U32_RANGE))
  }

  /** The state after `k` calls, and the port that call number `k` returns. */
  function After(p: Ports, k: nat): Ports {
    if k == 0 then p else Take(After(p, k - 1)).1
  }

  function Port(p: Ports, k: nat): nat {
    Take(After(p, k)).0
  }

  /** A range that was just set up and is in order. */
  ghost predicate Started(p: Ports) {
    0 < p.min <= p.max < U32_RANGE && p.next == p.min && p.min < U32_RANGE - 1
  }

  /** The remainder of `k` by `n`. */
  function Rem(k: nat, n: nat): (r: nat)
    requires n > 0
    ensures r < n
  {
    if k < n then k else Rem(k - n, n)
  }

  lemma {:induction false} RemNext(k: nat, n: nat)
    requires n > 0
    ensures Rem(k + 1, n) == if Rem(k, n) == n - 1 then 0 else Rem(k, n) + 1
  {
    if k >= n {
      RemNext(k - n, n);
    }
  }

  lemma {:induction false} RemDistinct(i: nat, j: nat, n: nat)
    requires n > 0 && i < j < i + n
    ensures Rem(i, n) != Rem(j, n)
  {
    if i >= n {
      RemDistinct(i - n, j - n, n);
    } else if j >= n {
      assert Rem(j, n) == j - n;
    }
  }

  /** How far above the minimum call number `k` lands when the maximum is `span` above it. The first
      round leaves out the minimum, and every later round leaves out the port behind it. */
  function Offset(span: nat, k: nat): nat {
    if k < span then k + 1
    else if span == 0 || Rem(k, span) == 0 then 0
    else Rem(k, span) + 1
  }

  /** How far above the minimum the cursor stands in front of call number `k`. */
  function Cursor(span: nat, k: nat): nat {
    if k <= span then k else Offset(span, k - 1) + if Offset(span, k - 1) == 0 then 1 else 0
  }

  lemma {:induction false} AfterIs(p: Ports, k: nat)
    requires Started(p)
    ensures After(p, k) == p.(next := p.min + Cursor(p.max - p.min, k))
  {
    var span := p.max - p.min;
    if k > 0 {
      AfterIs(p, k - 1);
      PortOf(p, After(p, k - 1), k - 1);
    }
  }

  lemma PortOf(p: Ports, q: Ports, k: nat)
    requires Started(p) && q == p.(next := p.min + Cursor(p.max - p.min, k))
    ensures Take(q).0 == p.min + Offset(p.max - p.min, k)
    ensures Take(q).1 == p.(next := p.min + Cursor(p.max - p.min, k + 1))
  {
    var span := p.max - p.min;
    if span < k {
      assert Cursor(span, k) == Offset(span, k - 1) + if Offset(span, k - 1) == 0 then 1 else 0;
      if span > 0 {
        RemNext(k - 1, span);
        assert Cursor(span, k) == Rem(k - 1, span) + 1;
      }
    } else if k == span > 0 {
      assert Rem(span, span) == 0;
    }
  }

  /** The port of every call, in closed form. */
  lemma PortIs(p: Ports, k: nat)
    requires Started(p)
    ensures Port(p, k) == p.min + Offset(p.max - p.min, k)
  {
    AfterIs(p, k);
    PortOf(p, After(p, k), k);
  }

  /** The rounds: the first call returns the port behind the minimum, the first round ends with the
      maximum, and every later round starts with the minimum. */
  lemma RoundsOfPorts(p: Ports, i: nat)
    requires Started(p) && p.min < p.max
    ensures i < p.max - p.min ==> Port(p, i) == p.min + 1 + i
    ensures Port(p, p.max - p.min) == p.min
    ensures 0 < i < p.max - p.min ==> Port(p, p.max - p.min + i) == p.min + 1 + i
  {
    PortIs(p, i);
    PortIs(p, p.max - p.min);
    PortIs(p, p.max - p.min + i);
    assert Rem(p.max - p.min, p.max - p.min) == 0;
    assert i < p.max - p.min ==> Rem(p.max - p.min + i, p.max - p.min) == i;
  }

  /** Any `max - min` calls in a row, across any wrap-around, return different ports. */
  lemma PortsDistinct(p: Ports, i: nat, j: nat)
    requires Started(p) && i < j < i + (p.max - p.min)
    ensures Port(p, i) != Port(p, j)
  {
    var span := p.max - p.min;
    PortIs(p, i);
    PortIs(p, j);
    if i >= span {
      RemDistinct(i, j, span);
    } else if j >= span {
      assert Rem(j, span) == j - span;
    }
  }

  /** No more than that: from the second round on, the ports repeat after `max - min` calls, and the
      port behind the minimum is never handed out again. */
  lemma PortsRepeat(p: Ports, k: nat)
    requires Started(p) && p.min < p.max && k >= p.max - p.min
    ensures Port(p, k + (p.max - p.min)) == Port(p, k)
    ensures Port(p, k) != p.min + 1
  {
    PortIs(p, k);
    PortIs(p, k + (p.max - p.min));
  }

  lemma OffsetInSpan(span: nat, k: nat)
    ensures Offset(span, k) <= span
  {
  }

  ghost predicate AlwaysInRange(p: Ports) {
    forall k: nat :: p.min <= Port(p, k) <= p.max
  }

  /** The arguments of a listen are not of the two kinds that break the allocator. */
  predicate Sound(a: nat, b: nat) {
    var low, high := if a <= b then a else b, if a <= b then b else a;
    !(low == 0 < high < FIRST_PRIVATE_PORT) && low != U32_RANGE - 1
  }

  /** After a listen, every port ever returned lies in the range, except in two cases: a zero argument
      beside one below the private ports turns the range round, and a range that starts at the last
      32-bit number makes the cursor wrap to zero. */
  lemma InRangeIff(a: nat, b: nat)
    requires a < U32_RANGE && b < U32_RANGE
    ensures AlwaysInRange(Listen(a, b)) <==> Sound(a, b)
  {
    var p := Listen(a, b);
    if Started(p) {
      forall k: nat ensures p.min <= Port(p, k) <= p.max {
        PortIs(p, k);
        OffsetInSpan(p.max - p.min, k);
      }
    } else if p.min > p.max {
      assert Port(p, 0) == p.min;
    } else {
      assert After(p, 1) == p.(next := 0);
      assert Port(p, 1) == 0;
    }
  }

  class Listener {
    var minPort: nat
    var maxPort: nat
    var nextPort: nat

    ghost function Model(): Ports
      reads this
    {
      Ports(minPort, maxPort, nextPort)
    }

    constructor ()
      ensures Model() == Ports(0, 0, 0)
    {
      minPort, maxPort, nextPort := 0, 0, 0;
    }

    /** With sound arguments the listener is ready, and no port it will ever return is out of range. */
    method OnAsyncListen(a: nat, b: nat)
      requires a < U32_RANGE && b < U32_RANGE
      modifies this
      ensures Model() == Listen(a, b)
      ensures AlwaysInRange(Model()) <==> Sound(a, b)
      ensures Sound(a, b) ==> Started(Model())
    {
      InRangeIff(a, b);
      minPort := if a <= b then a else b;
      maxPort := if a <= b then b else a;
      minPort := if minPort == 0 then FIRST_PRIVATE_PORT else minPort;
      maxPort := if maxPort == 0 then LAST_PORT else maxPort;
      nextPort := minPort;
    }

    method GetAndIncrementNextAvailablePort() returns (port: nat)
      modifies this
      ensures (port, Model()) == Take(old(Model()))
    {
      port := 0;
      if nextPort != 0 {
        if nextPort < maxPort {
          nextPort := nextPort + 1;
          port := nextPort;
        } else {
          port := minPort;
          nextPort := (port + 1) % U32_RANGE;
        }
      }
    }

    /** A round of the allocator: `max - min` calls never return a port twice. */
    method TakeRound(ghost p: Ports, ghost k: nat) returns (ports: seq<nat>)
      requires Started(p) && Model() == After(p, k)
      modifies this
      ensures |ports| == p.max - p.min && Model() == After(p, k + |ports|)
      ensures forall i :: 0 <= i < |ports| ==> p.min <= ports[i] <= p.max
      ensures forall i, j :: 0 <= i < j < |ports| ==> ports[i] != ports[j]
    {
      AfterIs(p, k);
      var span := maxPort - minPort;
      ports := [];
      ghost var calls := k;
      while |ports| < span
        invariant |ports| <= span && calls == k + |ports| && Model() == After(p, calls)
        invariant Returned(p, k, ports)
      {
        var port := GetAndIncrementNextAvailablePort();
        ports := ports + [port];
        calls := calls + 1;
      }
      RoundIsDistinct(p, k, ports);
    }
  }

  /** `ports` are those of the calls from number `k` on. */
  ghost predicate Returned(p: Ports, k: nat, ports: seq<nat>) {
    forall i :: 0 <= i < |ports| ==> ports[i] == Port(p, k + i)
  }

  lemma RoundIsDistinct(p: Ports, k: nat, ports: seq<nat>)
    requires Started(p) && |ports| == p.max - p.min && Returned(p, k, ports)
    ensures forall i :: 0 <= i < |ports| ==> p.min <= ports[i] <= p.max
    ensures forall i, j :: 0 <= i < j < |ports| ==> ports[i] != ports[j]
  {
    forall i | 0 <= i < |ports| ensures p.min <= ports[i] <= p.max {
      PortIs(p, k + i);
      OffsetInSpan(p.max - p.min, k + i);
    }
    forall i, j | 0 <= i < j < |ports| ensures ports[i] != ports[j] {
      PortsDistinct(p, k + i, k + j);
    }
  }
}
