/** The connected pool's address lists: for each peer, the addresses its verified sessions ran over, newest
  * first, cut to a bound by dropping the oldest address of the larger family.
  *
  * The class is the code; `Recent` is the plain history it has to agree with: every usable address of the
  * peer since it was last removed, newest first, each once. */
module AddressBook {
  import opened Common

  datatype SockAddr = SockAddr(isIpv6: bool, unspecified: bool, host: nat, port: nat)

  /** Whether an address names a destination at all. */
  predicate IsUsableContact(a: SockAddr) { !a.unspecified && a.port != 0 }

  const MAX_POOL_ADDRS_PER_PEER: nat := 8

  type Addrs = seq<SockAddr>

  // ---------------------------------------------------------------------------------------------
  // Cutting a list to its bound
  // ---------------------------------------------------------------------------------------------

  function CountFamily(s: Addrs, v6: bool): nat {
    if s == [] then 0 else (if s[0].isIpv6 == v6 then 1 else 0) + CountFamily(s[1..], v6)
  }

  /** The last position holding an address of the family. */
  function LastOfFamily(s: Addrs, v6: bool): (i: nat)
    requires CountFamily(s, v6) > 0
    ensures i < |s| && s[i].isIpv6 == v6
    ensures forall j :: i < j < |s| ==> s[j].isIpv6 != v6
  {
    if CountFamily(s[1..], v6) > 0 then LastOfFamily(s[1..], v6) + 1
    else NoneOfFamily(s[1..], v6); 0
  }

  lemma {:induction false} NoneOfFamily(s: Addrs, v6: bool)
    requires CountFamily(s, v6) == 0
    ensures forall j :: 0 <= j < |s| ==> s[j].isIpv6 != v6
  {
    if s == [] {
    } else {
      NoneOfFamily(s[1..], v6);
    }
  }

  lemma {:induction false} FamiliesAddUp(s: Addrs)
    ensures CountFamily(s, true) + CountFamily(s, false) == |s|
  {
    if s == [] {
    } else {
      FamiliesAddUp(s[1..]);
    }
  }

  function RemoveAt(s: Addrs, i: nat): Addrs
    requires i < |s|
  {
    s[..i] + s[i + 1..]
  }

  /** The family that gives one up: IPv6 whenever it is at least half the list. */
  predicate EvictsIpv6(s: Addrs) { CountFamily(s, true) * 2 >= |s| }

  lemma VictimExists(s: Addrs)
    requires s != []
    ensures CountFamily(s, EvictsIpv6(s)) > 0
  {
    FamiliesAddUp(s);
  }

  function Evicted(s: Addrs): Addrs
    requires s != []
  {
    VictimExists(s);
    RemoveAt(s, LastOfFamily(s, EvictsIpv6(s)))
  }

  function Retained(s: Addrs, limit: nat): Addrs {
    if |s| <= limit then s else Retained(Evicted(s), limit)
  }

  method RetainNewestPerFamily(s: Addrs, limit: nat) returns (kept: Addrs)
    ensures kept == Retained(s, limit)
  {
    kept := s;
    while |kept| > limit
      invariant Retained(kept, limit) == Retained(s, limit)
      decreases |kept|
    {
      var ipv6Count := CountIpv6(kept);
      var evictIpv6 := ipv6Count * 2 >= |kept|;
      VictimExists(kept);
      var victim := RPosition(kept, evictIpv6);
      kept := kept[..victim] + kept[victim + 1..];
    }
  }

  method CountIpv6(s: Addrs) returns (n: nat)
    ensures n == CountFamily(s, true)
  {
    n := 0;
    for i := 0 to |s|
      invariant n + CountFamily(s[i..], true) == CountFamily(s, true)
    {
      if s[i].isIpv6 { n := n + 1; }
      assert s[i..][1..] == s[i + 1..];
    }
  }

  /** The position found by scanning from the back. */
  method RPosition(s: Addrs, v6: bool) returns (i: nat)
    requires CountFamily(s, v6) > 0
    ensures i == LastOfFamily(s, v6)
  {
    i := |s| - 1;
    while s[i].isIpv6 != v6
      invariant i < |s| && LastOfFamily(s, v6) <= i
      decreases i
    {
      i := i - 1;
    }
  }

  // ---------------------------------------------------------------------------------------------
  // The history, and the part of it that is kept
  // ---------------------------------------------------------------------------------------------

  function Without(s: Addrs, a: SockAddr): Addrs {
    if s == [] then [] else if s[0] == a then Without(s[1..], a) else [s[0]] + Without(s[1..], a)
  }

  /** How many more addresses of each family are wanted. */
  datatype Quota = Quota(ipv6: nat, ipv4: nat) {
    function Of(v6: bool): nat { if v6 then ipv6 else ipv4 }

    function Less(v6: bool): Quota {
      if v6 then Quota(SaturatingSub(ipv6, 1), ipv4) else Quota(ipv6, SaturatingSub(ipv4, 1))
    }

    function More(v6: bool): Quota { if v6 then Quota(ipv6 + 1, ipv4) else Quota(ipv6, ipv4 + 1) }
  }

  /** The newest addresses of a newest-first history, so many of each family, in the history's order. */
  function Keep(h: Addrs, q: Quota): Addrs {
    if h == [] then [] else
      var rest := Keep(h[1..], q.Less(h[0].isIpv6));
      if q.Of(h[0].isIpv6) > 0 then [h[0]] + rest else rest
  }

  predicate Distinct(s: Addrs) { s != [] ==> s[0] !in s[1..] && Distinct(s[1..]) }

  lemma Cons(x: SockAddr, s: Addrs)
    ensures ([x] + s)[1..] == s
  {
  }

  lemma {:induction false} WithoutMembers(s: Addrs, a: SockAddr, x: SockAddr)
    ensures x in Without(s, a) <==> x in s && x != a
  {
    if s == [] {
    } else {
      WithoutMembers(s[1..], a, x);
    }
  }

  lemma {:induction false} WithoutAbsent(s: Addrs, a: SockAddr)
    requires a !in s
    ensures Without(s, a) == s
  {
    if s == [] {
    } else {
      WithoutAbsent(s[1..], a);
    }
  }

  lemma {:induction false} WithoutIsDistinct(s: Addrs, a: SockAddr)
    requires Distinct(s)
    ensures Distinct(Without(s, a))
  {
    if s == [] {
    } else {
      WithoutIsDistinct(s[1..], a);
      WithoutMembers(s[1..], a, s[0]);
      Cons(s[0], Without(s[1..], a));
    }
  }

  lemma {:induction false} WithoutCounts(s: Addrs, a: SockAddr, v6: bool)
    requires Distinct(s)
    ensures CountFamily(Without(s, a), v6) == CountFamily(s, v6) - (if a in s && a.isIpv6 == v6 then 1 else 0)
  {
    if s == [] {
    } else {
      WithoutCounts(s[1..], a, v6);
      Cons(s[0], Without(s[1..], a));
    }
  }

  lemma {:induction false} KeepCounts(h: Addrs, q: Quota, v6: bool)
    ensures CountFamily(Keep(h, q), v6) == Min(q.Of(v6), CountFamily(h, v6))
  {
    if h == [] {
    } else {
      KeepCounts(h[1..], q.Less(h[0].isIpv6), v6);
      Cons(h[0], Keep(h[1..], q.Less(h[0].isIpv6)));
    }
  }

  lemma {:induction false} KeepMembers(h: Addrs, q: Quota, x: SockAddr)
    requires x in Keep(h, q)
    ensures x in h
  {
    if q.Of(h[0].isIpv6) > 0 && x == h[0] {
    } else {
      KeepMembers(h[1..], q.Less(h[0].isIpv6), x);
    }
  }

  lemma {:induction false} KeepIsDistinct(h: Addrs, q: Quota)
    requires Distinct(h)
    ensures Distinct(Keep(h, q))
  {
    if h == [] {
    } else {
      var rest := Keep(h[1..], q.Less(h[0].isIpv6));
      KeepIsDistinct(h[1..], q.Less(h[0].isIpv6));
      if h[0] in rest { KeepMembers(h[1..], q.Less(h[0].isIpv6), h[0]); }
      Cons(h[0], rest);
    }
  }

  /** A family with no quota contributes nothing, and a smaller quota for it changes nothing. */
  lemma {:induction false} KeepWithoutQuota(h: Addrs, q: Quota, x: SockAddr)
    requires q.Of(x.isIpv6) == 0
    ensures x !in Keep(h, q)
  {
    if h == [] {
    } else {
      KeepWithoutQuota(h[1..], q.Less(h[0].isIpv6), x);
    }
  }

  /** Taking a kept address out of the history frees its place. */
  lemma {:induction false} KeepWithoutKept(h: Addrs, q: Quota, a: SockAddr)
    requires Distinct(h) && a in Keep(h, q)
    ensures Without(Keep(h, q), a) == Keep(Without(h, a), q.Less(a.isIpv6))
  {
    var f := h[0].isIpv6;
    var rest := Keep(h[1..], q.Less(f));
    if h[0] == a {
      if q.Of(f) == 0 { KeepMembers(h[1..], q.Less(f), a); }
      WithoutAbsent(h[1..], a);
      if a in rest { KeepMembers(h[1..], q.Less(f), a); }
      WithoutAbsent(rest, a);
      Cons(a, rest);
    } else {
      KeepWithoutKept(h[1..], q.Less(f), a);
      Cons(h[0], rest);
      Cons(h[0], Without(h[1..], a));
      if f == a.isIpv6 && q.Of(f) <= 1 { KeepWithoutQuota(h[1..], q.Less(f), a); }
    }
  }

  /** Taking an address that is not kept out of the history changes nothing that is. */
  lemma {:induction false} KeepWithoutUnkept(h: Addrs, q: Quota, a: SockAddr)
    requires Distinct(h) && a !in Keep(h, q)
    ensures Keep(Without(h, a), q) == Keep(h, q)
  {
    if h == [] {
    } else {
      var f := h[0].isIpv6;
      if h[0] == a {
        WithoutAbsent(h[1..], a);
        assert q.Of(f) == 0 && q.Less(f) == q;
      } else {
        KeepWithoutUnkept(h[1..], q.Less(f), a);
        Cons(h[0], Without(h[1..], a));
      }
    }
  }

  /** Dropping the oldest kept address of a family is keeping one fewer of that family. */
  lemma {:induction false} KeepOneFewer(h: Addrs, q: Quota, v6: bool)
    requires 0 < q.Of(v6) <= CountFamily(h, v6)
    ensures CountFamily(Keep(h, q), v6) == q.Of(v6)
    ensures RemoveAt(Keep(h, q), LastOfFamily(Keep(h, q), v6)) == Keep(h, q.Less(v6))
  {
    KeepCounts(h, q, v6);
    var f := h[0].isIpv6;
    var s, rest := Keep(h, q), Keep(h[1..], q.Less(f));
    KeepCounts(h[1..], q.Less(f), v6);
    Cons(h[0], rest);
    if f == v6 && q.Of(v6) == 1 {
      assert s == [h[0]] + rest && LastOfFamily(s, v6) == 0;
      assert q.Less(v6).Less(f) == q.Less(f);
      assert RemoveAt(s, 0) == rest;
    } else {
      KeepOneFewer(h[1..], q.Less(f), v6);
      assert q.Less(f).Less(v6) == q.Less(v6).Less(f);
      if q.Of(f) > 0 {
        RemoveAfterHead(h[0], rest, v6);
      }
    }
  }

  lemma RemoveAfterHead(x: SockAddr, s: Addrs, v6: bool)
    requires CountFamily(s, v6) > 0
    ensures ([x] + s)[1..] == s
    ensures RemoveAt([x] + s, LastOfFamily([x] + s, v6)) == [x] + RemoveAt(s, LastOfFamily(s, v6))
  {
    var t := [x] + s;
    Cons(x, s);
    assert t[1..] == s;
    assert LastOfFamily(t, v6) == LastOfFamily(s, v6) + 1;
    RemoveAtShift(x, s, LastOfFamily(s, v6));
  }

  lemma RemoveAtShift(x: SockAddr, s: Addrs, i: nat)
    requires i < |s|
    ensures RemoveAt([x] + s, i + 1) == [x] + RemoveAt(s, i)
  {
    var t := [x] + s;
    assert t[..i + 1] == [x] + s[..i];
    assert t[i + 2..] == s[i + 1..];
  }

  // ---------------------------------------------------------------------------------------------
  // One address more
  // ---------------------------------------------------------------------------------------------

  /** The list after a fresh session at `a`: `a` in front, its older mention gone, then the cut. */
  function Adopted(s: Addrs, a: SockAddr): Addrs {
    Retained([a] + Without(s, a), MAX_POOL_ADDRS_PER_PEER)
  }

  /** The history after a fresh session at `a`. */
  function Renewed(h: Addrs, a: SockAddr): Addrs { [a] + Without(h, a) }

  ghost predicate InRange(h: Addrs, q: Quota) {
    forall f :: Min(4, CountFamily(h, f)) <= q.Of(f) <= CountFamily(h, f)
  }

  /** What a list has to be, for the history behind it: the newest so many of each family, all of them
    * while they fit, and never fewer than the newest four of either family. */
  ghost predicate Reflects(s: Addrs, h: Addrs, q: Quota) {
    && s == Keep(h, q) && InRange(h, q)
    && q.ipv6 + q.ipv4 == Min(MAX_POOL_ADDRS_PER_PEER, |h|)
  }

  lemma ReflectsSize(s: Addrs, h: Addrs, q: Quota)
    requires Reflects(s, h, q)
    ensures |s| == q.ipv6 + q.ipv4 && forall f :: CountFamily(s, f) == q.Of(f)
  {
    KeepCounts(h, q, true);
    KeepCounts(h, q, false);
    FamiliesAddUp(s);
  }

  lemma RenewedFacts(h: Addrs, a: SockAddr)
    requires Distinct(h)
    ensures Distinct(Renewed(h, a))
    ensures forall f :: CountFamily(Renewed(h, a), f) == CountFamily(h, f) + (if a !in h && a.isIpv6 == f then 1 else 0)
    ensures |Renewed(h, a)| == |h| + (if a in h then 0 else 1)
  {
    Cons(a, Without(h, a));
    WithoutIsDistinct(h, a);
    WithoutMembers(h, a, a);
    WithoutCounts(h, a, true);
    WithoutCounts(h, a, false);
    FamiliesAddUp(h);
    FamiliesAddUp(Renewed(h, a));
  }

  /** Before any cut, the renewed list is the newest so many of the renewed history. */
  lemma RenewedIsKept(s: Addrs, h: Addrs, q: Quota, a: SockAddr)
    requires Distinct(h) && s == Keep(h, q)
    ensures [a] + Without(s, a) == Keep(Renewed(h, a), (if a in s then q.Less(a.isIpv6) else q).More(a.isIpv6))
  {
    var q' := if a in s then q.Less(a.isIpv6) else q;
    if a in s {
      KeepWithoutKept(h, q, a);
    } else {
      KeepWithoutUnkept(h, q, a);
      WithoutAbsent(s, a);
    }
    Cons(a, Without(h, a));
    assert q'.More(a.isIpv6).Less(a.isIpv6) == q';
  }

  /** Cutting a list that is at most one over its bound. */
  lemma CutReflects(s: Addrs, h: Addrs, q: Quota) returns (q': Quota)
    requires s == Keep(h, q) && InRange(h, q)
    requires q.ipv6 + q.ipv4 == Min(MAX_POOL_ADDRS_PER_PEER + 1, |h|)
      || q.ipv6 + q.ipv4 == Min(MAX_POOL_ADDRS_PER_PEER, |h|)
    ensures Reflects(Retained(s, MAX_POOL_ADDRS_PER_PEER), h, q')
  {
    KeepCounts(h, q, true);
    KeepCounts(h, q, false);
    FamiliesAddUp(s);
    q' := q;
    if |s| > MAX_POOL_ADDRS_PER_PEER {
      var f := EvictsIpv6(s);
      q' := q.Less(f);
      EvictionReflects(s, h, q);
      RetainedOnce(s, MAX_POOL_ADDRS_PER_PEER);
    }
  }

  lemma RetainedOnce(s: Addrs, limit: nat)
    requires |s| == limit + 1
    ensures Retained(s, limit) == Evicted(s)
  {
    assert |Evicted(s)| == limit;
  }

  lemma EvictionReflects(s: Addrs, h: Addrs, q: Quota)
    requires s == Keep(h, q) && |s| > MAX_POOL_ADDRS_PER_PEER && InRange(h, q)
    ensures var f := EvictsIpv6(s); q.Of(f) > 0 && Evicted(s) == Keep(h, q.Less(f)) && InRange(h, q.Less(f))
  {
    KeepCounts(h, q, true);
    KeepCounts(h, q, false);
    FamiliesAddUp(s);
    VictimExists(s);
    KeepOneFewer(h, q, EvictsIpv6(s));
  }

  /** What the renewed list holds of each family, before the cut. */
  function Wanted(s: Addrs, q: Quota, a: SockAddr): Quota {
    (if a in s then q.Less(a.isIpv6) else q).More(a.isIpv6)
  }

  lemma WantedFits(s: Addrs, h: Addrs, q: Quota, a: SockAddr)
    requires Distinct(h) && Reflects(s, h, q)
    ensures var w := Wanted(s, q, a);
      && InRange(Renewed(h, a), w)
      && (w.ipv6 + w.ipv4 == Min(MAX_POOL_ADDRS_PER_PEER + 1, |Renewed(h, a)|)
          || w.ipv6 + w.ipv4 == Min(MAX_POOL_ADDRS_PER_PEER, |Renewed(h, a)|))
  {
    RenewedFacts(h, a);
    FamiliesAddUp(h);
    if a in s {
      KeepMembers(h, q, a);
      if q.Of(a.isIpv6) == 0 { KeepWithoutQuota(h, q, a); }
      assert Wanted(s, q, a) == q;
    } else if a in h {
      UnkeptMeansCut(h, q, a);
    }
  }

  /** One fresh session keeps the list reflecting the history. */
  lemma AdoptionReflects(s: Addrs, h: Addrs, q: Quota, a: SockAddr) returns (q': Quota)
    requires Distinct(h) && Reflects(s, h, q)
    ensures Reflects(Adopted(s, a), Renewed(h, a), q')
  {
    RenewedIsKept(s, h, q, a);
    WantedFits(s, h, q, a);
    q' := CutReflects([a] + Without(s, a), Renewed(h, a), Wanted(s, q, a));
  }

  /** An address of the history is missing from the list only if its family was cut. */
  lemma {:induction false} UnkeptMeansCut(h: Addrs, q: Quota, a: SockAddr)
    requires a in h && a !in Keep(h, q)
    ensures q.Of(a.isIpv6) < CountFamily(h, a.isIpv6)
  {
    if h[0] == a {
    } else {
      UnkeptMeansCut(h[1..], q.Less(h[0].isIpv6), a);
    }
  }

  // ---------------------------------------------------------------------------------------------
  // The pool
  // ---------------------------------------------------------------------------------------------

  datatype PoolEvent = PeerAdded(peer: string, addr: SockAddr) | PeerRemoved(peer: string)

  /** A session this node learns from: not with itself, and at an address that names a destination. */
  predicate Counts(self: Option<string>, e: PoolEvent) {
    e.PeerAdded? && Some(e.peer) != self && IsUsableContact(e.addr)
  }

  /** The plain history of one peer: its usable addresses since it was last removed, newest first. */
  function Recent(events: seq<PoolEvent>, self: Option<string>, peer: string): Addrs {
    if events == [] then [] else
      var e := events[|events| - 1];
      var before := Recent(events[..|events| - 1], self, peer);
      if e.peer != peer then before
      else if e.PeerRemoved? then []
      else if Counts(self, e) then Renewed(before, e.addr)
      else before
  }

  /** One event, on the pool's map. */
  function PoolStep(pool: map<string, Addrs>, self: Option<string>, e: PoolEvent): map<string, Addrs> {
    if e.PeerRemoved? then pool - {e.peer}
    else if !Counts(self, e) then pool
    else pool[e.peer := Adopted(if e.peer in pool then pool[e.peer] else [], e.addr)]
  }

  function PoolAfter(events: seq<PoolEvent>, self: Option<string>): map<string, Addrs> {
    if events == [] then map[] else
      PoolStep(PoolAfter(events[..|events| - 1], self), self, events[|events| - 1])
  }

  class ConnectedPool {
    const selfPeerId: Option<string>
    var pool: map<string, Addrs>
    ghost var events: seq<PoolEvent>

    ghost predicate Valid()
      reads this
    {
      pool == PoolAfter(events, selfPeerId)
    }

    constructor (selfPeerId: Option<string>)
      ensures Valid() && events == [] && this.selfPeerId == selfPeerId
    {
      this.selfPeerId := selfPeerId;
      pool, events := map[], [];
    }

    method OnPoolEvent(e: PoolEvent)
      requires Valid()
      modifies this
      ensures Valid() && events == old(events) + [e]
    {
      assert (events + [e])[..|events|] == events;
      events := events + [e];
      match e
      case PeerRemoved(peer) =>
        pool := pool - {peer};
      case PeerAdded(peer, addr) =>
        if selfPeerId == Some(peer) {
          return;
        }
        if !IsUsableContact(addr) {
          return;
        }
        var addrs := if peer in pool then pool[peer] else [];
        addrs := Without(addrs, addr);
        addrs := [addr] + addrs;
        addrs := RetainNewestPerFamily(addrs, MAX_POOL_ADDRS_PER_PEER);
        pool := pool[peer := addrs];
    }
  }

  function Listed(events: seq<PoolEvent>, self: Option<string>, peer: string): Addrs {
    var pool := PoolAfter(events, self);
    if peer in pool then pool[peer] else []
  }

  lemma {:induction false} ListReflectsHistory(events: seq<PoolEvent>, self: Option<string>, peer: string)
    returns (q: Quota)
    ensures Distinct(Recent(events, self, peer))
    ensures Reflects(Listed(events, self, peer), Recent(events, self, peer), q)
    ensures peer in PoolAfter(events, self) <==> Recent(events, self, peer) != []
  {
    if events == [] {
      q := Quota(0, 0);
    } else {
      var e := events[|events| - 1];
      var before := events[..|events| - 1];
      q := ListReflectsHistory(before, self, peer);
      if e.peer == peer && e.PeerRemoved? {
        q := Quota(0, 0);
      } else if e.peer == peer && Counts(self, e) {
        RenewedFacts(Recent(before, self, peer), e.addr);
        q := AdoptionReflects(Listed(before, self, peer), Recent(before, self, peer), q, e.addr);
      }
    }
  }

  /** The addresses of one family, in order. */
  function FamilyPart(s: Addrs, v6: bool): Addrs {
    if s == [] then [] else (if s[0].isIpv6 == v6 then [s[0]] else []) + FamilyPart(s[1..], v6)
  }

  lemma FamilyPartCons(a: SockAddr, s: Addrs, v6: bool)
    ensures FamilyPart([a] + s, v6) == if a.isIpv6 == v6 then [a] + FamilyPart(s, v6) else FamilyPart(s, v6)
  {
    assert ([a] + s)[1..] == s;
    assert [] + FamilyPart(s, v6) == FamilyPart(s, v6);
  }

  lemma TakeOneMore<T>(a: T, s: seq<T>, k: nat)
    requires 0 < k <= |s| + 1
    ensures ([a] + s)[..k] == [a] + s[..k - 1]
  {
  }

  lemma {:induction false} FamilyPartOfKept(h: Addrs, q: Quota, v6: bool)
    requires q.Of(v6) <= CountFamily(h, v6)
    ensures |FamilyPart(h, v6)| == CountFamily(h, v6)
    ensures FamilyPart(Keep(h, q), v6) == FamilyPart(h, v6)[..q.Of(v6)]
  {
    FamilyPartSize(h, v6);
    if h == [] {
    } else {
      var f := h[0].isIpv6;
      var rest := q.Less(f);
      FamilyPartSize(h[1..], v6);
      FamilyPartOfKept(h[1..], rest, v6);
      assert h == [h[0]] + h[1..];
      FamilyPartCons(h[0], h[1..], v6);
      FamilyPartCons(h[0], Keep(h[1..], rest), v6);
      if f == v6 && q.Of(f) > 0 { TakeOneMore(h[0], FamilyPart(h[1..], v6), q.Of(f)); }
    }
  }

  lemma {:induction false} FamilyPartSize(h: Addrs, v6: bool)
    ensures |FamilyPart(h, v6)| == CountFamily(h, v6)
  {
    if h == [] {
    } else {
      FamilyPartSize(h[1..], v6);
    }
  }

  /** After any churn, the list of any peer is: free of duplicates; at most eight long, and everything the
    * history holds while that is at most eight; headed by the newest usable address; and in each family
    * exactly the newest addresses of that family, never fewer than the newest four, so neither family can
    * be wiped out by churn of the other. */
  lemma AddressListAgreesWithHistory(events: seq<PoolEvent>, self: Option<string>, peer: string)
    ensures var s, h := Listed(events, self, peer), Recent(events, self, peer);
      && Distinct(s)
      && |s| == Min(MAX_POOL_ADDRS_PER_PEER, |h|)
      && (h != [] ==> s != [] && s[0] == h[0])
      && (peer in PoolAfter(events, self) <==> s != [])
      && (forall f :: var kept := |FamilyPart(s, f)|;
            && Min(4, |FamilyPart(h, f)|) <= kept <= |FamilyPart(h, f)|
            && FamilyPart(s, f) == FamilyPart(h, f)[..kept])
  {
    var s, h := Listed(events, self, peer), Recent(events, self, peer);
    var q := ListReflectsHistory(events, self, peer);
    ReflectsSize(s, h, q);
    KeepIsDistinct(h, q);
    forall f
      ensures |FamilyPart(s, f)| == q.Of(f) && |FamilyPart(h, f)| == CountFamily(h, f)
      ensures FamilyPart(s, f) == FamilyPart(h, f)[..q.Of(f)]
    {
      FamilyPartOfKept(h, q, f);
    }
    if h != [] {
      assert CountFamily(h, h[0].isIpv6) >= 1;
    }
  }

  /** This node is never listed as its own peer. */
  lemma {:induction false} NeverListsItself(events: seq<PoolEvent>, me: string)
    ensures me !in PoolAfter(events, Some(me))
  {
    if events == [] {
    } else {
      NeverListsItself(events[..|events| - 1], me);
    }
  }

  // ---------------------------------------------------------------------------------------------
  // The list, on the pool's events alone
  // ---------------------------------------------------------------------------------------------

  /** The k-th event is a session with another peer at an address that names a destination, and nothing since has
    * removed that peer or renewed that address. */
  predicate LastSession(events: seq<PoolEvent>, self: Option<string>, peer: string, addr: SockAddr, k: nat) {
    && k < |events| && events[k] == PeerAdded(peer, addr)
    && self != Some(peer) && !addr.unspecified && addr.port != 0
    && forall m :: k < m < |events| ==> events[m] != PeerRemoved(peer) && events[m] != PeerAdded(peer, addr)
  }

  /** `times[i]` is when the i-th of these addresses was last in session; later ones come first, and none is missing. */
  ghost predicate NewestFirst(h: Addrs, events: seq<PoolEvent>, self: Option<string>, peer: string, times: seq<nat>) {
    && |times| == |h| && (forall i, j :: 0 <= i < j < |h| ==> times[i] > times[j])
    && (forall i :: 0 <= i < |h| ==> LastSession(events, self, peer, h[i], times[i]))
    && forall addr, k: nat :: LastSession(events, self, peer, addr, k) ==> addr in h
  }

  /** The history of a peer, exactly: the addresses of its sessions since it was last removed, each once, the one last
    * in session first. */
  lemma {:induction false} RecentIsNewestFirst(events: seq<PoolEvent>, self: Option<string>, peer: string)
    returns (times: seq<nat>)
    ensures NewestFirst(Recent(events, self, peer), events, self, peer, times)
  {
    if events == [] {
      times := [];
    } else {
      var n := |events| - 1;
      var e := events[n];
      times := RecentIsNewestFirst(events[..n], self, peer);
      var h := Recent(events[..n], self, peer);
      if e == PeerRemoved(peer) {
        times := [];
        SessionsOneMore(events, self, peer);
      } else if e.PeerAdded? && e.peer == peer && Counts(self, e) {
        times := Renews(h, events, self, peer, times);
      } else {
        Unmoved(h, events, self, peer, times);
      }
    }
  }

  /** An event about another peer, or one that does not count, changes nothing. */
  lemma Unmoved(h: Addrs, events: seq<PoolEvent>, self: Option<string>, peer: string, times: seq<nat>)
    requires events != [] && NewestFirst(h, events[..|events| - 1], self, peer, times)
    requires var e := events[|events| - 1]; e.peer == peer ==> e.PeerAdded? && !Counts(self, e)
    ensures NewestFirst(h, events, self, peer, times)
  {
    var n := |events| - 1;
    SessionsOneMore(events, self, peer);
    forall i | 0 <= i < |h| ensures LastSession(events, self, peer, h[i], times[i]) {
      assert LastSession(events[..n], self, peer, h[i], times[i]);
    }
  }

  /** One event more, for the sessions of one peer. */
  lemma SessionsOneMore(events: seq<PoolEvent>, self: Option<string>, peer: string)
    requires events != []
    ensures var n, e := |events| - 1, events[|events| - 1];
      && (forall addr, k: nat :: k < n ==>
            (LastSession(events, self, peer, addr, k) <==>
              LastSession(events[..n], self, peer, addr, k) && e != PeerRemoved(peer) && e != PeerAdded(peer, addr)))
      && (forall addr :: LastSession(events, self, peer, addr, n) <==> e == PeerAdded(peer, addr) && Counts(self, e))
  {
    var n := |events| - 1;
    assert forall m :: 0 <= m < n ==> events[..n][m] == events[m];
  }

  function TimesAt(times: seq<nat>, picks: seq<nat>): (r: seq<nat>)
    requires forall i :: 0 <= i < |picks| ==> picks[i] < |times|
    ensures |r| == |picks| && forall i :: 0 <= i < |picks| ==> r[i] == times[picks[i]]
  {
    seq(|picks|, i requires 0 <= i < |picks| => times[picks[i]])
  }

  /** A renewed address moves to the front, and everything else stays in its order. */
  lemma Renews(h: Addrs, events: seq<PoolEvent>, self: Option<string>, peer: string, times: seq<nat>)
    returns (renewed: seq<nat>)
    requires events != [] && NewestFirst(h, events[..|events| - 1], self, peer, times)
    requires var e := events[|events| - 1]; e.PeerAdded? && e.peer == peer && Counts(self, e)
    ensures NewestFirst(Renewed(h, events[|events| - 1].addr), events, self, peer, renewed)
  {
    var n, a := |events| - 1, events[|events| - 1].addr;
    var picks := WithoutSelects(h, a);
    var kept, later := Without(h, a), TimesAt(times, picks);
    renewed := [n] + later;
    OthersStayInSession(h, events, self, peer, times, picks);
    SessionsOneMore(events, self, peer);
    NoneIsMissed(h, events, self, peer, times);
    InFront(a, n, kept, later, events, self, peer);
  }

  lemma InFront(a: SockAddr, n: nat, kept: Addrs, later: seq<nat>, events: seq<PoolEvent>, self: Option<string>,
                peer: string)
    requires LastSession(events, self, peer, a, n) && |later| == |kept|
    requires forall i, j :: 0 <= i < j < |later| ==> later[i] > later[j]
    requires forall i :: 0 <= i < |kept| ==> later[i] < n && LastSession(events, self, peer, kept[i], later[i])
    requires forall addr, k: nat :: LastSession(events, self, peer, addr, k) ==> addr in [a] + kept
    ensures NewestFirst([a] + kept, events, self, peer, [n] + later)
  {
  }

  lemma OthersStayInSession(h: Addrs, events: seq<PoolEvent>, self: Option<string>, peer: string, times: seq<nat>,
                            picks: seq<nat>)
    requires events != [] && NewestFirst(h, events[..|events| - 1], self, peer, times)
    requires events[|events| - 1].PeerAdded? && Selects(h, picks, Without(h, events[|events| - 1].addr))
    ensures var kept := Without(h, events[|events| - 1].addr);
      var later := TimesAt(times, picks);
      && (forall i, j :: 0 <= i < j < |later| ==> later[i] > later[j])
      && forall i :: 0 <= i < |kept| ==> later[i] < |events| - 1 && LastSession(events, self, peer, kept[i], later[i])
  {
    var n, a := |events| - 1, events[|events| - 1].addr;
    var kept, later := Without(h, a), TimesAt(times, picks);
    forall i | 0 <= i < |kept| ensures later[i] < n && LastSession(events, self, peer, kept[i], later[i])
    {
      assert LastSession(events[..n], self, peer, h[picks[i]], times[picks[i]]);
      assert kept[i] in kept;
      WithoutMembers(h, a, kept[i]);
      SessionsOneMore(events, self, peer);
    }
  }

  lemma NoneIsMissed(h: Addrs, events: seq<PoolEvent>, self: Option<string>, peer: string, times: seq<nat>)
    requires events != [] && NewestFirst(h, events[..|events| - 1], self, peer, times)
    requires events[|events| - 1].PeerAdded? && events[|events| - 1].peer == peer
    ensures forall addr, k: nat :: LastSession(events, self, peer, addr, k) ==>
      addr in Renewed(h, events[|events| - 1].addr)
  {
    var n, a := |events| - 1, events[|events| - 1].addr;
    forall addr, k: nat | LastSession(events, self, peer, addr, k) ensures addr in Renewed(h, a) {
      SessionsOneMore(events, self, peer);
      WithoutMembers(h, a, addr);
      if k < n { assert LastSession(events[..n], self, peer, addr, k); }
    }
  }

  lemma {:induction false} WithoutSelects(s: Addrs, a: SockAddr) returns (picks: seq<nat>)
    ensures Selects(s, picks, Without(s, a))
    ensures forall i :: 0 <= i < |s| ==> (i in picks <==> s[i] != a)
  {
    if s == [] {
      picks := [];
    } else {
      var rest := WithoutSelects(s[1..], a);
      picks := SelectsBehind(s, rest, Without(s[1..], a), s[0] != a);
    }
  }

  function OneOn(picks: seq<nat>): (r: seq<nat>)
    ensures |r| == |picks| && forall i :: 0 <= i < |picks| ==> r[i] == picks[i] + 1
  {
    seq(|picks|, i requires 0 <= i < |picks| => picks[i] + 1)
  }

  lemma OneOnHolds(picks: seq<nat>)
    ensures 0 !in OneOn(picks) && forall i: nat :: i > 0 ==> (i in OneOn(picks) <==> i - 1 in picks)
  {
    forall i: nat | i > 0 ensures i in OneOn(picks) <==> i - 1 in picks {
      if k :| 0 <= k < |picks| && picks[k] == i - 1 { assert OneOn(picks)[k] == i; }
      if k :| 0 <= k < |picks| && OneOn(picks)[k] == i { assert picks[k] == i - 1; }
    }
  }

  /** One element more in front, taken or left out. */
  lemma SelectsBehind(s: Addrs, picks: seq<nat>, part: Addrs, taken: bool) returns (shifted: seq<nat>)
    requires s != [] && Selects(s[1..], picks, part)
    ensures Selects(s, shifted, if taken then [s[0]] + part else part)
    ensures 0 in shifted <==> taken
    ensures forall i :: 0 < i < |s| ==> (i in shifted <==> i - 1 in picks)
  {
    OneOnHolds(picks);
    assert Selects(s, OneOn(picks), part);
    shifted := if taken then [0] + OneOn(picks) else OneOn(picks);
  }

  /** The places before the i-th that hold an address of its family. */
  ghost function NewerOfItsFamily(h: Addrs, i: nat): set<nat>
    requires i < |h|
  {
    set j: nat | 0 <= j < i && h[j].isIpv6 == h[i].isIpv6
  }

  lemma NewerOneBehind(h: Addrs, i: nat)
    requires 0 < i < |h|
    ensures |NewerOfItsFamily(h, i)|
         == |NewerOfItsFamily(h[1..], i - 1)| + (if h[0].isIpv6 == h[i].isIpv6 then 1 else 0)
  {
    var before, rest := NewerOfItsFamily(h, i), NewerOfItsFamily(h[1..], i - 1);
    ShiftedSize(rest);
    forall j | j in before && j > 0 ensures j in Shifted(rest) { assert j - 1 in rest; }
    assert before == Shifted(rest) + (if h[0].isIpv6 == h[i].isIpv6 then {0} else {});
  }

  function Shifted(s: set<nat>): set<nat> { set j | j in s :: j + 1 }

  lemma {:induction false} ShiftedSize(s: set<nat>)
    ensures |Shifted(s)| == |s|
  {
    if s == {} {
      assert Shifted(s) == {};
    } else {
      var j :| j in s;
      forall x | x in Shifted(s) && x != j + 1 ensures x in Shifted(s - {j}) { assert x - 1 in s - {j}; }
      assert Shifted(s) == Shifted(s - {j}) + {j + 1};
      ShiftedSize(s - {j});
    }
  }

  lemma {:induction false} KeepSelects(h: Addrs, q: Quota) returns (picks: seq<nat>)
    ensures Selects(h, picks, Keep(h, q))
    ensures forall i :: 0 <= i < |h| ==> (i in picks <==> |NewerOfItsFamily(h, i)| < q.Of(h[i].isIpv6))
  {
    if h == [] {
      picks := [];
    } else {
      var f := h[0].isIpv6;
      var rest := KeepSelects(h[1..], q.Less(f));
      picks := SelectsBehind(h, rest, Keep(h[1..], q.Less(f)), q.Of(f) > 0);
      assert NewerOfItsFamily(h, 0) == {};
      forall i | 0 < i < |h| ensures i in picks <==> |NewerOfItsFamily(h, i)| < q.Of(h[i].isIpv6) {
        NewerOneBehind(h, i);
        assert h[1..][i - 1] == h[i];
      }
    }
  }

  /** What is listed of a history, exactly up to how many of each family: the newest of each family in the history's
    * order, eight in all or the whole history, and the newest four of either family always. */
  lemma TheListIsTheNewestOfEachFamily(events: seq<PoolEvent>, self: Option<string>, peer: string)
    returns (times: seq<nat>, picks: seq<nat>, ipv6: nat, ipv4: nat)
    ensures var h, s := Recent(events, self, peer), Listed(events, self, peer);
      && NewestFirst(h, events, self, peer, times) && Selects(h, picks, s)
      && |s| == (if |h| <= 8 then |h| else 8)
      && (forall i :: 0 <= i < |h| ==>
            && (i in picks <==> |NewerOfItsFamily(h, i)| < if h[i].isIpv6 then ipv6 else ipv4)
            && (|NewerOfItsFamily(h, i)| < 4 ==> i in picks))
  {
    var h := Recent(events, self, peer);
    times := RecentIsNewestFirst(events, self, peer);
    var q := ListReflectsHistory(events, self, peer);
    ReflectsSize(Listed(events, self, peer), h, q);
    picks := KeepSelects(h, q);
    ipv6, ipv4 := q.ipv6, q.ipv4;
    forall i | 0 <= i < |h| && |NewerOfItsFamily(h, i)| < 4
      ensures |NewerOfItsFamily(h, i)| < q.Of(h[i].isIpv6)
    {
      FamilyIsLarger(h, i);
    }
  }

  /** An address is one more of its family than those before it. */
  lemma {:induction false} FamilyIsLarger(h: Addrs, i: nat)
    requires i < |h|
    ensures |NewerOfItsFamily(h, i)| < CountFamily(h, h[i].isIpv6)
  {
    if i == 0 {
      assert NewerOfItsFamily(h, 0) == {};
    } else {
      NewerOneBehind(h, i);
      FamilyIsLarger(h[1..], i - 1);
    }
  }

  /** One cut, exactly: the oldest address of the family that gives one up goes, and that is IPv6 when it is at least
    * half the list; the rest keep their order. */
  lemma ACutDropsTheLargerFamilysOldest(s: Addrs, limit: nat) returns (victim: nat)
    requires |s| > limit
    ensures victim < |s| && Retained(s, limit) == Retained(s[..victim] + s[victim + 1..], limit)
    ensures forall j :: victim < j < |s| ==> s[j].isIpv6 != s[victim].isIpv6
    ensures s[victim].isIpv6 <==> 2 * |set j: nat | j < |s| && s[j].isIpv6| >= |s|
  {
    VictimExists(s);
    victim := LastOfFamily(s, EvictsIpv6(s));
    Ipv6Places(s);
  }

  lemma {:induction false} Ipv6Places(s: Addrs)
    ensures CountFamily(s, true) == |set j: nat | j < |s| && s[j].isIpv6|
  {
    var places := set j: nat | j < |s| && s[j].isIpv6;
    if s == [] {
      assert places == {};
    } else {
      var rest := set j: nat | j < |s[1..]| && s[1..][j].isIpv6;
      Ipv6Places(s[1..]);
      ShiftedSize(rest);
      forall j | j in places && j > 0 ensures j in Shifted(rest) { assert j - 1 in rest; }
      assert places == Shifted(rest) + (if s[0].isIpv6 then {0} else {});
    }
  }
}
