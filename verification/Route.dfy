/** The route list of ip.c: with contiguous netmasks, lookup is longest prefix match. */
module Route {
  import opened Base
  import opened Checksum

  /** Addresses and masks are in network byte order, as stored. */
  datatype Route = Route(network: u32, netmask: u32, nexthop: u32, iface: nat)

  // ---- Bitwise and ----

  /** `x & y`. */
  function And(x: nat, y: nat): (r: nat)
    ensures r <= x && r <= y
    decreases x
  {
    if x == 0 then 0 else (if x % 2 == 1 && y % 2 == 1 then 1 else 0) + 2 * And(x / 2, y / 2)
  }

  /** Halves are taken separately. */
  lemma {:induction false} AndSplit(x: nat, y: nat, x': nat, y': nat, k: nat)
    requires x' < Pow2(k) && y' < Pow2(k)
    ensures And(x * Pow2(k) + x', y * Pow2(k) + y') == And(x, y) * Pow2(k) + And(x', y')
    decreases k
  {
    hide And, Pow2;
    if k == 0 {
      NoBits();
    } else {
      var p := Pow2(k - 1);
      Doubled(x, k);
      Doubled(y, k);
      Doubled(And(x, y), k);
      AndStep(x * Pow2(k) + x', y * Pow2(k) + y');
      AndStep(x', y');
      var xp, yp := x * p, y * p;
      assert (2 * xp + x') / 2 == xp + x' / 2 && (2 * yp + y') / 2 == yp + y' / 2;
      assert (2 * xp + x') % 2 == x' % 2 && (2 * yp + y') % 2 == y' % 2;
      AndSplit(x, y, x' / 2, y' / 2, k - 1);
    }
  }

  lemma Doubled(x: nat, k: nat)
    requires k > 0
    ensures Pow2(k) == 2 * Pow2(k - 1) && x * Pow2(k) == 2 * (x * Pow2(k - 1))
  {
  }

  lemma NoBits()
    ensures Pow2(0) == 1 && And(0, 0) == 0
  {
  }

  lemma AndStep(x: nat, y: nat)
    ensures And(x, y) == (if x % 2 == 1 && y % 2 == 1 then 1 else 0) + 2 * And(x / 2, y / 2)
  {
  }

  lemma Pow8()
    ensures Pow2(8) == 256 && Pow2(16) == TWO16
  {
  }

  lemma SwapAnd16(x: u16, y: u16)
    ensures And(x, y) <= x && Swap16(And(x, y)) == And(Swap16(x), Swap16(y))
  {
    hide And, Pow2;
    Pow8();
    var xh, xl, yh, yl := x / 256, x % 256, y / 256, y % 256;
    AndSplit(xh, yh, xl, yl, 8);
    AndSplit(xl, yl, xh, yh, 8);
    assert And(x, y) / 256 == And(xh, yh) && And(x, y) % 256 == And(xl, yl);
  }

  /** Masking commutes with the byte order. */
  lemma SwapAnd(x: u32, y: u32)
    ensures And(x, y) < TWO32 && Swap32(And(x, y)) == And(Swap32(x), Swap32(y))
  {
    hide And, Swap16, Pow2;
    Pow8();
    var xh, xl, yh, yl := x / TWO16, x % TWO16, y / TWO16, y % TWO16;
    AndSplit(xh, yh, xl, yl, 16);
    SwapAnd16(xh, yh);
    SwapAnd16(xl, yl);
    assert And(x, y) == And(xh, yh) * TWO16 + And(xl, yl);
    assert And(x, y) / TWO16 == And(xh, yh) && And(x, y) % TWO16 == And(xl, yl);
    AndSplit(Swap16(xl), Swap16(yl), Swap16(xh), Swap16(yh), 16);
  }

  // ---- Contiguous masks ----

  /** The mask of a prefix, in host byte order. */
  function Mask(n: nat): u32
    requires n <= 32
  {
    if n == 0 then 0
    else
      Pow32();
      PowGrows(32 - n, 32);
      TWO32 - Pow2(32 - n)
  }

  lemma MaskIs(n: nat)
    requires n <= 32
    ensures Mask(n) == TWO32 - Pow2(32 - n)
  {
    Pow32();
  }

  lemma Pow32()
    ensures Pow2(32) == TWO32
  {
    Pow8();
    PowSplit(16, 16);
  }

  lemma PowStep(n: nat)
    requires n > 0
    ensures Pow2(n) == 2 * Pow2(n - 1)
  {
  }

  lemma Twice(a: nat, b: nat)
    ensures (2 * a) * b == 2 * (a * b)
  {
  }

  lemma {:induction false} PowSplit(m: nat, n: nat)
    ensures Pow2(m + n) == Pow2(m) * Pow2(n)
    decreases m
  {
    if m == 0 {
      assert Pow2(0) == 1;
    } else {
      hide Pow2;
      PowSplit(m - 1, n);
      PowStep(m);
      PowStep(m + n);
      Twice(Pow2(m - 1), Pow2(n));
    }
  }

  lemma {:induction false} PowGrows(m: nat, n: nat)
    requires m < n
    ensures Pow2(m) < Pow2(n)
    decreases n
  {
    if m == n - 1 {
    } else {
      PowGrows(m, n - 1);
    }
  }

  lemma {:induction false} AndZero(x: nat)
    ensures And(x, 0) == 0
  {
    if x == 0 {
    } else {
      AndZero(x / 2);
    }
  }

  lemma OnesStep(n: nat)
    requires n > 0
    ensures Pow2(n) == 2 * Pow2(n - 1)
    ensures (Pow2(n) - 1) / 2 == Pow2(n - 1) - 1 && (Pow2(n) - 1) % 2 == 1
  {
  }

  lemma {:induction false} AndOnes(x: nat, n: nat)
    requires x < Pow2(n)
    ensures And(x, Pow2(n) - 1) == x
    decreases n
  {
    if n == 0 {
    } else {
      hide And, Pow2;
      OnesStep(n);
      AndStep(x, Pow2(n) - 1);
      AndOnes(x / 2, n - 1);
    }
  }

  lemma AndPrefix(q: nat, rest: nat, n: nat, k: nat)
    requires q < Pow2(n) && rest < Pow2(k)
    ensures And(q * Pow2(k) + rest, (Pow2(n) - 1) * Pow2(k)) == q * Pow2(k)
  {
    hide And, Pow2;
    AndSplit(q, Pow2(n) - 1, rest, 0, k);
    AndOnes(q, n);
    AndZero(rest);
  }

  lemma MaskBits(n: nat)
    requires n <= 32
    ensures Mask(n) == (Pow2(n) - 1) * Pow2(32 - n) && TWO32 == Pow2(n) * Pow2(32 - n)
  {
    hide Pow2, Mask;
    Pow32();
    PowSplit(n, 32 - n);
    MaskIs(n);
    OneLess(Pow2(n), Pow2(32 - n));
  }

  lemma Division(x: nat, p: nat, q: nat)
    requires p > 0 && x < q * p
    ensures x == x / p * p + x % p && x % p < p && x / p < q
  {
  }

  /** Masking with a prefix clears the rest. */
  lemma AndMask(x: u32, n: nat)
    requires n <= 32
    ensures And(x, Mask(n)) == x / Pow2(32 - n) * Pow2(32 - n)
  {
    hide And, Pow2, Mask;
    MaskBits(n);
    Division(x, Pow2(32 - n), Pow2(n));
    AndPrefix(x / Pow2(32 - n), x % Pow2(32 - n), n, 32 - n);
  }

  lemma OneLess(a: nat, p: nat)
    ensures (a - 1) * p == a * p - p
  {
  }

  /** Masks are ordered by prefix length. */
  lemma MaskOrder(m: nat, n: nat)
    requires m <= 32 && n <= 32
    ensures Mask(m) < Mask(n) <==> m < n
  {
    hide Mask, Pow2;
    MaskIs(m);
    MaskIs(n);
    if m < n { PowGrows(32 - n, 32 - m); }
    if n < m { PowGrows(32 - m, 32 - n); }
  }

  // ---- Lookup ----

  predicate Matches(r: Route, dst: u32) { And(dst, r.netmask) == r.network }

  predicate IsPrefix(r: Route, n: nat) { n <= 32 && r.netmask == Swap32(Mask(n)) }

  /** `dst` lies in the network of `r`: the first `n` bits agree, and the network has no others. */
  predicate InNetwork(r: Route, n: nat, dst: u32) {
    && n <= 32
    && Swap32(r.network) % Pow2(32 - n) == 0
    && Swap32(dst) / Pow2(32 - n) == Swap32(r.network) / Pow2(32 - n)
  }

  lemma MatchesIff(r: Route, n: nat, dst: u32)
    requires IsPrefix(r, n)
    ensures Matches(r, dst) <==> InNetwork(r, n, dst)
  {
    hide And, Pow2, Mask, Swap32;
    var p, h, w := Pow2(32 - n), Swap32(dst), Swap32(r.network);
    SwapAnd(dst, r.netmask);
    SwapBack(Mask(n));
    SwapBack(r.network);
    SwapBack(And(dst, r.netmask));
    AndMask(h, n);
    assert Matches(r, dst) <==> h / p * p == w;
    Multiple(h / p, w, p);
  }

  lemma SwapBack(v: u32)
    ensures Swap32(Swap32(v)) == v
  {
    Order32(v);
  }

  lemma Multiple(q: nat, w: nat, p: nat)
    requires p > 0
    ensures q * p == w <==> w % p == 0 && w / p == q
  {
    assert w == w / p * p + w % p;
    if q * p == w { ExactQuotient(q, p); }
  }

  lemma ExactQuotient(q: nat, p: nat)
    requires p > 0
    ensures q * p / p == q && q * p % p == 0
  {
    var d, m := q * p / p, q * p % p;
    assert q * p == d * p + m;
    Nothing(q - d, p, m);
  }

  lemma Nothing(k: int, p: nat, m: int)
    requires k * p == m && 0 <= m < p
    ensures k == 0
  {
  }

  /** What ip_route_lookup returns, position 0 being the head of the list. */
  ghost predicate Finds(rs: seq<Route>, dst: u32, r: Option<nat>) {
    match r
    case None => forall j :: 0 <= j < |rs| ==> !Matches(rs[j], dst)
    case Some(i) =>
      && i < |rs| && Matches(rs[i], dst)
      && (forall j :: 0 <= j < i && Matches(rs[j], dst) ==> Swap32(rs[j].netmask) < Swap32(rs[i].netmask))
      && (forall j :: i < j < |rs| && Matches(rs[j], dst) ==> Swap32(rs[j].netmask) <= Swap32(rs[i].netmask))
  }

  /**
   * With contiguous masks of lengths `ns`: nothing is found exactly when `dst` is in no network; otherwise a network of
   * maximal prefix length that contains `dst`, and of those the one added last.
   */
  lemma LongestPrefixMatch(rs: seq<Route>, ns: seq<nat>, dst: u32, r: Option<nat>)
    requires |ns| == |rs| && forall i :: 0 <= i < |rs| ==> IsPrefix(rs[i], ns[i])
    requires Finds(rs, dst, r)
    ensures r.None? <==> forall j :: 0 <= j < |rs| ==> !InNetwork(rs[j], ns[j], dst)
    ensures r.Some? ==>
              && InNetwork(rs[r.value], ns[r.value], dst)
              && (forall j :: 0 <= j < |rs| && InNetwork(rs[j], ns[j], dst) ==> ns[j] <= ns[r.value])
              && (forall j :: 0 <= j < r.value && InNetwork(rs[j], ns[j], dst) ==> ns[j] < ns[r.value])
  {
    hide Matches, InNetwork, Mask, Swap32;
    forall j | 0 <= j < |rs| ensures Matches(rs[j], dst) <==> InNetwork(rs[j], ns[j], dst) {
      MatchesIff(rs[j], ns[j], dst);
    }
    if r.Some? {
      var i := r.value;
      forall j | 0 <= j < |rs|
        ensures Swap32(rs[j].netmask) < Swap32(rs[i].netmask) <==> ns[j] < ns[i]
        ensures Swap32(rs[i].netmask) < Swap32(rs[j].netmask) <==> ns[i] < ns[j]
      {
        SwapBack(Mask(ns[i]));
        SwapBack(Mask(ns[j]));
        MaskOrder(ns[j], ns[i]);
        MaskOrder(ns[i], ns[j]);
      }
    }
  }

  /** The route of an interface contains exactly the addresses that share its prefix. */
  lemma InterfaceNetwork(unicast: u32, n: nat, dst: u32)
    requires n <= 32
    ensures var netmask := Swap32(Mask(n));
            And(unicast, netmask) < TWO32 &&
            (Matches(Route(And(unicast, netmask), netmask, IP_ADDR_ANY, 0), dst) <==>
             Swap32(dst) / Pow2(32 - n) == Swap32(unicast) / Pow2(32 - n))
  {
    hide And, Pow2, Mask, Swap32;
    var netmask, p := Swap32(Mask(n)), Pow2(32 - n);
    SwapAnd(unicast, netmask);
    SwapBack(Mask(n));
    AndMask(Swap32(unicast), n);
    var r := Route(And(unicast, netmask), netmask, IP_ADDR_ANY, 0);
    MatchesIff(r, n, dst);
    Multiple(Swap32(unicast) / p, Swap32(r.network), p);
  }

  /** An entry of the list. Insertion is at the head, so links never change. */
  class Node {
    const route: Route
    const next: Node?

    constructor (route: Route, next: Node?)
      ensures this.route == route && this.next == next
    {
      this.route := route;
      this.next := next;
    }
  }

  class Routes {
    var head: Node?
    ghost var Nodes: seq<Node>   // the entries, from the head
    ghost var Added: seq<Route>  // the calls of ip_route_add, in order

    ghost predicate Valid()
      reads this
    {
      && |Nodes| == |Added|
      && (Nodes == [] ==> head == null)
      && (Nodes != [] ==> head == Nodes[0] && Nodes[|Nodes| - 1].next == null)
      && (forall i :: 0 <= i < |Nodes| - 1 ==> Nodes[i].next == Nodes[i + 1])
      && (forall i :: 0 <= i < |Nodes| ==> Nodes[i].route == Added[|Added| - 1 - i])
    }

    /** The routes, from the head: the additions, newest first. */
    ghost function List(): (rs: seq<Route>)
      requires Valid()
      reads this
      ensures |rs| == |Added| && forall i :: 0 <= i < |rs| ==> rs[i] == Nodes[i].route == Added[|Added| - 1 - i]
    {
      seq(|Nodes|, i requires 0 <= i < |Nodes| reads this => Nodes[i].route)
    }

    constructor ()
      ensures Valid() && Added == []
    {
      head, Nodes, Added := null, [], [];
    }

    /** ip_route_add. */
    method Add(network: u32, netmask: u32, nexthop: u32, iface: nat)
      requires Valid()
      modifies this
      ensures Valid()
      ensures Added == old(Added) + [Route(network, netmask, nexthop, iface)]
      ensures List() == [Route(network, netmask, nexthop, iface)] + old(List())
    {
      var route := Route(network, netmask, nexthop, iface);
      head := new Node(route, head);
      Nodes := [head] + Nodes;
      Added := Added + [route];
    }

    /** ip_route_set_default_gateway, with the gateway parsed. */
    method SetDefaultGateway(iface: nat, gateway: u32)
      requires Valid()
      modifies this
      ensures Valid()
      ensures Added == old(Added) + [Route(IP_ADDR_ANY, IP_ADDR_ANY, gateway, iface)]
    {
      Add(IP_ADDR_ANY, IP_ADDR_ANY, gateway, iface);
    }

    /** ip_route_lookup: the route, and where it is in the list. */
    method Lookup(dst: u32) returns (candidate: Option<Route>, ghost at: Option<nat>)
      requires Valid()
      ensures Finds(List(), dst, at)
      ensures candidate == if at.None? then None else Some(List()[at.value])
      ensures candidate.Some? ==> at.value < |List()| && candidate.value in Added
      ensures candidate.None? <==> forall r :: r in List() ==> !Matches(r, dst)
      ensures candidate.Some? ==>
                && Matches(candidate.value, dst)
                && forall r :: r in List() && Matches(r, dst) ==> Swap32(r.netmask) <= Swap32(candidate.value.netmask)
    {
      hide And, Swap32;
      candidate, at := None, None;
      var node := head;
      ghost var i := 0;
      ghost var rs := List();
      while node != null
        invariant 0 <= i <= |Nodes|
        invariant if i < |Nodes| then node == Nodes[i] else node == null
        invariant Finds(rs[..i], dst, at)
        invariant candidate == if at.None? then None else Some(rs[at.value])
        decreases |Nodes| - i
      {
        var route := node.route;
        assert rs[..i + 1] == rs[..i] + [route];
        if And(dst, route.netmask) == route.network {
          if candidate.None? || Swap32(candidate.value.netmask) < Swap32(route.netmask) {
            candidate, at := Some(route), Some(i);
          }
        }
        node := node.next;
        i := i + 1;
      }
      assert rs[..|rs|] == rs;
      if at.Some? { assert rs[at.value] in rs; }
    }
  }
}
