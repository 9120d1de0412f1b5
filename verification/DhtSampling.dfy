/** Quorum reconciliation of what many peers report about many content keys.
  *
  * A 32-byte id is the natural number its big-endian bytes spell, so ordering ids is ordering numbers. */
module DhtSampling {
  import opened Common
  import S = StableSort

  type Key = nat
  type PeerId = nat

  const U32_MAX: nat := 0xFFFF_FFFF

  datatype ObservedCandidate = ObservedCandidate(contentId: Key, providerCount: nat, sizeHint: Option<nat>)

  datatype PeerObservation = PeerObservation(peerId: PeerId, holdings: seq<ObservedCandidate>)

  datatype QuorumPolicy = QuorumPolicy(minDistinctPeers: nat) {
    /** The threshold is a 32-bit number. */
    predicate Valid() { minDistinctPeers <= U32_MAX }
  }

  /** The policy every production round samples under. */
  const DEFAULT_QUORUM := QuorumPolicy(3)

  datatype Candidate = Candidate(contentId: Key, knownProviderCount: nat, sizeHint: Option<nat>)

  // ---------------------------------------------------------------------------------------------
  // Ordered iteration and the lower median
  // ---------------------------------------------------------------------------------------------

  predicate StrictlyIncreasing(s: seq<nat>) { forall i, j :: 0 <= i < j < |s| ==> s[i] < s[j] }

  method Least(s: set<nat>) returns (m: nat)
    requires s != {}
    ensures IsLeast(s, m)
  {
    m :| m in s;
    var rest := s - {m};
    while rest != {}
      invariant m in s && rest <= s
      invariant forall x :: x in s && x !in rest ==> m <= x
      decreases rest
    {
      var x :| x in rest;
      if x < m { m := x; }
      rest := rest - {x};
    }
  }

  predicate IsLeast(s: set<nat>, m: nat) { m in s && forall x :: x in s ==> m <= x }

  lemma {:induction false} LeastExists(s: set<nat>)
    requires s != {}
    ensures exists m :: IsLeast(s, m)
  {
    var m :| m in s;
    if s == {m} {
      assert IsLeast(s, m);
    } else {
      LeastExists(s - {m});
      var l :| IsLeast(s - {m}, l);
      assert forall x :: x in s && x != m ==> x in s - {m};
      assert IsLeast(s, if l < m then l else m);
    }
  }

  /** The members of a set, smallest first. */
  ghost function Ascending(s: set<nat>): (r: seq<nat>)
    ensures StrictlyIncreasing(r) && |r| == |s|
    ensures forall x :: x in r <==> x in s
  {
    if s == {} then [] else
      LeastExists(s);
      var m :| IsLeast(s, m);
      [m] + Ascending(s - {m})
  }

  lemma LeastLeads(s: set<nat>, m: nat)
    requires IsLeast(s, m)
    ensures Ascending(s) == [m] + Ascending(s - {m})
  {
    forall x | IsLeast(s, x) ensures x == m {}
  }

  lemma Associate(a: seq<nat>, m: nat, b: seq<nat>)
    ensures a + ([m] + b) == (a + [m]) + b
  {
  }

  /** Iterating an ordered map: its keys, smallest first. */
  method KeysInOrder(s: set<nat>) returns (keys: seq<nat>)
    ensures keys == Ascending(s)
  {
    keys := [];
    var rest := s;
    while rest != {}
      invariant rest <= s && keys + Ascending(rest) == Ascending(s)
      decreases rest
    {
      var m := Least(rest);
      LeastLeads(rest, m);
      Associate(keys, m, Ascending(rest - {m}));
      keys := keys + [m];
      rest := rest - {m};
    }
  }

  function Itself(n: nat): int { n }

  function Sorted(s: seq<nat>): (r: seq<nat>)
    ensures |r| == |s|
  {
    S.Sorted(s, Itself)
  }

  predicate IsSorted(s: seq<nat>) { S.Ordered(s, Itself) }

  /** How many of these satisfy being below (or above) a bound. */
  function CountBelow(s: seq<nat>, bound: nat): nat {
    if s == [] then 0 else CountBelow(s[..|s| - 1], bound) + (if s[|s| - 1] < bound then 1 else 0)
  }

  function CountAbove(s: seq<nat>, bound: nat): nat {
    if s == [] then 0 else CountAbove(s[..|s| - 1], bound) + (if s[|s| - 1] > bound then 1 else 0)
  }

  lemma {:induction false} InsertCounts(s: seq<nat>, x: nat, bound: nat)
    ensures CountBelow(S.Insert(s, x, Itself), bound) == CountBelow(s, bound) + (if x < bound then 1 else 0)
    ensures CountAbove(S.Insert(s, x, Itself), bound) == CountAbove(s, bound) + (if x > bound then 1 else 0)
  {
    if s == [] || s[|s| - 1] <= x {
      assert (s + [x])[..|s|] == s;
    } else {
      var n := |s| - 1;
      InsertCounts(s[..n], x, bound);
      var t := S.Insert(s[..n], x, Itself);
      assert (t + [s[n]])[..|t|] == t;
    }
  }

  lemma {:induction false} SortedCounts(s: seq<nat>, bound: nat)
    ensures CountBelow(Sorted(s), bound) == CountBelow(s, bound)
    ensures CountAbove(Sorted(s), bound) == CountAbove(s, bound)
  {
    if s == [] {
    } else {
      SortedCounts(s[..|s| - 1], bound);
      InsertCounts(Sorted(s[..|s| - 1]), s[|s| - 1], bound);
    }
  }

  lemma SortedFacts(s: seq<nat>, bound: nat)
    ensures IsSorted(Sorted(s)) && forall y :: y in Sorted(s) <==> y in s
    ensures CountBelow(Sorted(s), bound) == CountBelow(s, bound)
    ensures CountAbove(Sorted(s), bound) == CountAbove(s, bound)
  {
    S.SortedIsOrdered(s, Itself);
    SortedCounts(s, bound);
    forall y ensures y in Sorted(s) <==> y in s { S.SortedHolds(s, Itself, y); }
  }

  function LowerMedian(s: seq<nat>): nat
    requires s != []
  {
    Sorted(s)[(|s| - 1) / 2]
  }

  function LowerMedianIfAny(s: seq<nat>): Option<nat> {
    if s == [] then None else Some(LowerMedian(s))
  }

  lemma {:induction false} BelowInSorted(s: seq<nat>, m: nat, bound: nat)
    requires IsSorted(s) && m < |s|
    ensures s[m] < bound <==> CountBelow(s, bound) >= m + 1
  {
    var n := |s| - 1;
    assert s[m] <= s[n];
    if m < n {
      BelowInSorted(s[..n], m, bound);
    } else if m > 0 {
      assert s[m - 1] <= s[m];
      BelowInSorted(s[..n], m - 1, bound);
    }
    CountsAreBounded(s[..n], bound);
  }

  lemma {:induction false} AboveInSorted(s: seq<nat>, m: nat, bound: nat)
    requires IsSorted(s) && m < |s|
    ensures s[m] > bound <==> CountAbove(s, bound) >= |s| - m
  {
    var n := |s| - 1;
    assert s[m] <= s[n];
    if m < n {
      AboveInSorted(s[..n], m, bound);
    } else if s[n] <= bound {
      NoneAbove(s, bound);
    }
  }

  lemma {:induction false} NoneAbove(s: seq<nat>, bound: nat)
    requires forall i :: 0 <= i < |s| ==> s[i] <= bound
    ensures CountAbove(s, bound) == 0
  {
    if s == [] {
    } else {
      NoneAbove(s[..|s| - 1], bound);
    }
  }

  lemma {:induction false} CountsAreBounded(s: seq<nat>, bound: nat)
    ensures CountBelow(s, bound) <= |s|
  {
    if s == [] {
    } else {
      CountsAreBounded(s[..|s| - 1], bound);
    }
  }

  /** The median law, with its asymmetry: values below a bound drag the lower median below it exactly when
    * they are at least half of all, values above a bound exactly when they are more than half. */
  lemma LowerMedianIsRobust(s: seq<nat>, low: nat, high: nat)
    requires s != []
    ensures LowerMedian(s) in s
    ensures LowerMedian(s) < low <==> 2 * CountBelow(s, low) >= |s|
    ensures LowerMedian(s) > high <==> 2 * CountAbove(s, high) > |s|
  {
    var m := (|s| - 1) / 2;
    SortedFacts(s, low);
    SortedFacts(s, high);
    BelowInSorted(Sorted(s), m, low);
    AboveInSorted(Sorted(s), m, high);
  }

  // ---------------------------------------------------------------------------------------------
  // Grouping and admission
  // ---------------------------------------------------------------------------------------------

  type PerPeer = map<PeerId, ObservedCandidate>
  type Grouped = map<Key, PerPeer>

  function Entry(g: Grouped, key: Key): PerPeer { if key in g then g[key] else map[] }

  /** The last value a peer reported for a key replaces the one before. */
  function Report(g: Grouped, peer: PeerId, held: ObservedCandidate): Grouped {
    g[held.contentId := Entry(g, held.contentId)[peer := held]]
  }

  function ReportAll(g: Grouped, peer: PeerId, holdings: seq<ObservedCandidate>): Grouped {
    if holdings == [] then g else
      var n := |holdings| - 1;
      Report(ReportAll(g, peer, holdings[..n]), peer, holdings[n])
  }

  function Group(observations: seq<PeerObservation>): Grouped {
    if observations == [] then map[] else
      var n := |observations| - 1;
      ReportAll(Group(observations[..n]), observations[n].peerId, observations[n].holdings)
  }

  function CountsOf(perPeer: PerPeer, peers: seq<PeerId>): seq<nat>
    requires forall p :: p in peers ==> p in perPeer
  {
    if peers == [] then [] else
      CountsOf(perPeer, peers[..|peers| - 1]) + [perPeer[peers[|peers| - 1]].providerCount]
  }

  function SizesOf(perPeer: PerPeer, peers: seq<PeerId>): seq<nat>
    requires forall p :: p in peers ==> p in perPeer
  {
    if peers == [] then [] else
      var hint := perPeer[peers[|peers| - 1]].sizeHint;
      SizesOf(perPeer, peers[..|peers| - 1]) + (if hint.Some? then [hint.value] else [])
  }

  lemma {:induction false} CountsOfSize(perPeer: PerPeer, peers: seq<PeerId>)
    requires forall p :: p in peers ==> p in perPeer
    ensures |CountsOf(perPeer, peers)| == |peers|
  {
    if peers == [] {
    } else {
      CountsOfSize(perPeer, peers[..|peers| - 1]);
    }
  }

  /** What one key's per-peer reports reconcile to. */
  ghost function Admitted(key: Key, perPeer: PerPeer, policy: QuorumPolicy): Option<Candidate>
    requires perPeer != map[]
  {
    if Min(|perPeer|, U32_MAX) < policy.minDistinctPeers then None else
      var peers := Ascending(perPeer.Keys);
      CountsOfSize(perPeer, peers);
      Some(Candidate(key, LowerMedian(CountsOf(perPeer, peers)), LowerMedianIfAny(SizesOf(perPeer, peers))))
  }

  method Admit(key: Key, perPeer: PerPeer, policy: QuorumPolicy) returns (r: Option<Candidate>)
    requires perPeer != map[]
    ensures r == Admitted(key, perPeer, policy)
  {
    var distinctPeers := Min(|perPeer|, U32_MAX);
    if distinctPeers < policy.minDistinctPeers {
      return None;
    }
    var peers := KeysInOrder(perPeer.Keys);
    CountsOfSize(perPeer, peers);
    var counts := CountsOf(perPeer, peers);
    var sizes := SizesOf(perPeer, peers);
    r := Some(Candidate(key, LowerMedian(counts), LowerMedianIfAny(sizes)));
  }

  /** A grouping never holds a key nobody reported. */
  predicate Populated(g: Grouped) { forall k :: k in g ==> g[k] != map[] }

  /** The admitted candidates of these keys, in their order. */
  ghost function AdmittedAmong(g: Grouped, keys: seq<Key>, policy: QuorumPolicy): seq<Candidate>
    requires Populated(g) && forall k :: k in keys ==> k in g
  {
    if keys == [] then [] else
      var k := keys[|keys| - 1];
      var r := Admitted(k, g[k], policy);
      AdmittedAmong(g, keys[..|keys| - 1], policy) + (if r.Some? then [r.value] else [])
  }

  lemma {:induction false} ReportAllIsPopulated(g: Grouped, peer: PeerId, holdings: seq<ObservedCandidate>)
    requires Populated(g)
    ensures Populated(ReportAll(g, peer, holdings))
  {
    if holdings == [] {
    } else {
      var n := |holdings| - 1;
      ReportAllIsPopulated(g, peer, holdings[..n]);
      var before := ReportAll(g, peer, holdings[..n]);
      assert peer in Entry(before, holdings[n].contentId)[peer := holdings[n]];
    }
  }

  lemma {:induction false} GroupIsPopulated(observations: seq<PeerObservation>)
    ensures Populated(Group(observations))
  {
    if observations == [] {
    } else {
      var n := |observations| - 1;
      GroupIsPopulated(observations[..n]);
      ReportAllIsPopulated(Group(observations[..n]), observations[n].peerId, observations[n].holdings);
    }
  }

  ghost function Reconciled(observations: seq<PeerObservation>, policy: QuorumPolicy): seq<Candidate> {
    GroupIsPopulated(observations);
    AdmittedAmong(Group(observations), Ascending(Group(observations).Keys), policy)
  }

  method GroupReports(observations: seq<PeerObservation>) returns (reports: Grouped)
    ensures reports == Group(observations)
  {
    reports := map[];
    for i := 0 to |observations|
      invariant reports == Group(observations[..i])
    {
      assert observations[..i + 1][..i] == observations[..i];
      var o := observations[i];
      ghost var before := reports;
      for j := 0 to |o.holdings|
        invariant reports == ReportAll(before, o.peerId, o.holdings[..j])
      {
        assert o.holdings[..j + 1][..j] == o.holdings[..j];
        reports := Report(reports, o.peerId, o.holdings[j]);
      }
      assert o.holdings[..|o.holdings|] == o.holdings;
    }
    assert observations[..|observations|] == observations;
  }

  method Reconcile(observations: seq<PeerObservation>, policy: QuorumPolicy) returns (out: seq<Candidate>)
    ensures out == Reconciled(observations, policy)
  {
    var reports := GroupReports(observations);
    GroupIsPopulated(observations);
    var keys := KeysInOrder(reports.Keys);
    out := AdmitAll(reports, keys, policy);
  }

  method AdmitAll(reports: Grouped, keys: seq<Key>, policy: QuorumPolicy) returns (out: seq<Candidate>)
    requires Populated(reports) && forall k :: k in keys ==> k in reports
    ensures out == AdmittedAmong(reports, keys, policy)
  {
    out := [];
    for i := 0 to |keys|
      invariant out == AdmittedAmong(reports, keys[..i], policy)
    {
      var r := Admit(keys[i], reports[keys[i]], policy);
      AdmittedOneMore(reports, keys, i, policy);
      if r.Some? { out := out + [r.value]; }
    }
    assert keys[..|keys|] == keys;
  }

  lemma AdmittedOneMore(g: Grouped, keys: seq<Key>, i: nat, policy: QuorumPolicy)
    requires Populated(g) && i < |keys| && forall k :: k in keys ==> k in g
    ensures AdmittedAmong(g, keys[..i + 1], policy)
         == AdmittedAmong(g, keys[..i], policy)
            + (var r := Admitted(keys[i], g[keys[i]], policy); if r.Some? then [r.value] else [])
  {
    assert keys[..i + 1][..i] == keys[..i];
  }

  /** One sampling round: `regions[i]` is what probing the i-th keyspace point reports. */
  method SampleCandidates(regions: seq<seq<PeerObservation>>, policy: QuorumPolicy) returns (out: seq<Candidate>)
    ensures out == Reconciled(Joined(regions), policy)
    ensures policy.Valid() ==> DecidedByQuorum(regions, policy, out)
  {
    if policy.Valid() { QuorumDecidesARound(regions, policy); }
    var observations: seq<PeerObservation> := [];
    for i := 0 to |regions|
      invariant observations == Joined(regions[..i])
    {
      assert regions[..i + 1][..i] == regions[..i];
      observations := observations + regions[i];
    }
    assert regions[..|regions|] == regions;
    out := Reconcile(observations, policy);
  }

  function Joined(regions: seq<seq<PeerObservation>>): seq<PeerObservation> {
    if regions == [] then [] else Joined(regions[..|regions| - 1]) + regions[|regions| - 1]
  }

  // ---------------------------------------------------------------------------------------------
  // What the grouping means
  // ---------------------------------------------------------------------------------------------

  /** The last thing this list says about `key`. */
  function LastHeld(holdings: seq<ObservedCandidate>, key: Key): Option<ObservedCandidate> {
    if holdings == [] then None
    else if holdings[|holdings| - 1].contentId == key then Some(holdings[|holdings| - 1])
    else LastHeld(holdings[..|holdings| - 1], key)
  }

  /** The last thing `peer` said about `key` anywhere in the round. */
  function LastReport(observations: seq<PeerObservation>, key: Key, peer: PeerId): Option<ObservedCandidate> {
    if observations == [] then None else
      var o := observations[|observations| - 1];
      var l := LastHeld(o.holdings, key);
      if o.peerId == peer && l.Some? then l else LastReport(observations[..|observations| - 1], key, peer)
  }

  function Lookup(g: Grouped, key: Key, peer: PeerId): Option<ObservedCandidate> {
    if peer in Entry(g, key) then Some(Entry(g, key)[peer]) else None
  }

  lemma {:induction false} ReportAllLookup(g: Grouped, peer: PeerId, holdings: seq<ObservedCandidate>, key: Key,
                                           p: PeerId)
    ensures Lookup(ReportAll(g, peer, holdings), key, p)
         == if p == peer && LastHeld(holdings, key).Some? then LastHeld(holdings, key) else Lookup(g, key, p)
  {
    if holdings == [] {
    } else {
      ReportAllLookup(g, peer, holdings[..|holdings| - 1], key, p);
    }
  }

  /** The grouping holds, per key and peer, exactly that peer's last report. */
  lemma {:induction false} GroupHoldsLastReports(observations: seq<PeerObservation>, key: Key, peer: PeerId)
    ensures Lookup(Group(observations), key, peer) == LastReport(observations, key, peer)
  {
    if observations == [] {
    } else {
      var n := |observations| - 1;
      GroupHoldsLastReports(observations[..n], key, peer);
      ReportAllLookup(Group(observations[..n]), observations[n].peerId, observations[n].holdings, key, peer);
    }
  }

  /** The distinct peers that mention `key` at all. */
  ghost function Reporters(observations: seq<PeerObservation>, key: Key): set<PeerId> {
    set i | 0 <= i < |observations| && LastHeld(observations[i].holdings, key).Some? :: observations[i].peerId
  }

  lemma {:induction false} ReportersReported(observations: seq<PeerObservation>, key: Key, peer: PeerId)
    ensures peer in Reporters(observations, key) <==> LastReport(observations, key, peer).Some?
  {
    if observations == [] {
    } else {
      var n := |observations| - 1;
      ReportersReported(observations[..n], key, peer);
      if peer in Reporters(observations[..n], key) {
        var i :| 0 <= i < n && LastHeld(observations[..n][i].holdings, key).Some?
          && observations[..n][i].peerId == peer;
        assert observations[i] == observations[..n][i];
      }
      if peer in Reporters(observations, key) {
        var i :| 0 <= i < |observations| && LastHeld(observations[i].holdings, key).Some?
          && observations[i].peerId == peer;
        if i < n { assert observations[i] == observations[..n][i]; }
      }
    }
  }

  lemma EntryIsReporters(observations: seq<PeerObservation>, key: Key)
    ensures Entry(Group(observations), key).Keys == Reporters(observations, key)
    ensures key in Group(observations) <==> Reporters(observations, key) != {}
  {
    GroupIsPopulated(observations);
    forall p ensures p in Entry(Group(observations), key) <==> p in Reporters(observations, key) {
      GroupHoldsLastReports(observations, key, p);
      ReportersReported(observations, key, p);
    }
    if key in Group(observations) {
      assert Group(observations)[key] != map[];
      var p :| p in Group(observations)[key];
      assert p in Reporters(observations, key);
    }
  }

  // ---------------------------------------------------------------------------------------------
  // The quorum
  // ---------------------------------------------------------------------------------------------

  lemma {:induction false} AdmittedHasItsKey(g: Grouped, keys: seq<Key>, policy: QuorumPolicy, c: Candidate)
    requires Populated(g) && forall k :: k in keys ==> k in g
    requires c in AdmittedAmong(g, keys, policy)
    ensures c.contentId in keys && Admitted(c.contentId, g[c.contentId], policy) == Some(c)
  {
    var n := |keys| - 1;
    assert keys == keys[..n] + [keys[n]];
    if c in AdmittedAmong(g, keys[..n], policy) { AdmittedHasItsKey(g, keys[..n], policy, c); }
  }

  lemma {:induction false} AdmittedIsListed(g: Grouped, keys: seq<Key>, policy: QuorumPolicy, k: Key)
    requires Populated(g) && forall x :: x in keys ==> x in g
    requires k in keys && Admitted(k, g[k], policy).Some?
    ensures Admitted(k, g[k], policy).value in AdmittedAmong(g, keys, policy)
  {
    var n := |keys| - 1;
    assert keys == keys[..n] + [keys[n]];
    if k in keys[..n] { AdmittedIsListed(g, keys[..n], policy, k); }
    AdmittedLast(g, keys, policy, Admitted(k, g[k], policy).value);
  }

  lemma AdmittedLast(g: Grouped, keys: seq<Key>, policy: QuorumPolicy, c: Candidate)
    requires Populated(g) && keys != [] && forall x :: x in keys ==> x in g
    ensures var n := |keys| - 1;
      c in AdmittedAmong(g, keys, policy) <==>
        (c in AdmittedAmong(g, keys[..n], policy) || Admitted(keys[n], g[keys[n]], policy) == Some(c))
  {
  }

  predicate InOrder(out: seq<Candidate>) { forall i, j :: 0 <= i < j < |out| ==> out[i].contentId < out[j].contentId }

  lemma {:induction false} AdmittedInOrder(g: Grouped, keys: seq<Key>, policy: QuorumPolicy)
    requires Populated(g) && StrictlyIncreasing(keys) && forall k :: k in keys ==> k in g
    ensures InOrder(AdmittedAmong(g, keys, policy))
  {
    if keys == [] {
    } else {
      var n := |keys| - 1;
      AdmittedInOrder(g, keys[..n], policy);
      var before := AdmittedAmong(g, keys[..n], policy);
      forall i | 0 <= i < |before| ensures before[i].contentId < keys[n] {
        AdmittedHasItsKey(g, keys[..n], policy, before[i]);
      }
    }
  }

  /** What stands behind a candidate: the entry of its key, held by exactly the key's distinct reporters. */
  lemma CandidateIsAdmitted(observations: seq<PeerObservation>, policy: QuorumPolicy, c: Candidate)
    requires c in Reconciled(observations, policy)
    ensures var g := Group(observations);
      && c.contentId in g && g[c.contentId] != map[] && Admitted(c.contentId, g[c.contentId], policy) == Some(c)
      && g[c.contentId].Keys == Reporters(observations, c.contentId)
      && |g[c.contentId]| == |Reporters(observations, c.contentId)|
  {
    var g: Grouped := Group(observations);
    GroupIsPopulated(observations);
    AdmittedHasItsKey(g, Ascending(g.Keys), policy, c);
    EntryIsReporters(observations, c.contentId);
    assert |g[c.contentId]| == |g[c.contentId].Keys|;
  }

  /** A key is admitted exactly when its distinct reporters reach the quorum, however often one of them
    * repeats itself and in however many probed regions; each admitted key appears once, in increasing
    * order of id. */
  lemma QuorumDecides(observations: seq<PeerObservation>, policy: QuorumPolicy, key: Key)
    requires policy.Valid()
    ensures var out := Reconciled(observations, policy);
      && ((exists c :: c in out && c.contentId == key)
          <==> Reporters(observations, key) != {} && |Reporters(observations, key)| >= policy.minDistinctPeers)
      && InOrder(out)
  {
    var g, out := Group(observations), Reconciled(observations, policy);
    if c :| c in out && c.contentId == key { CandidateIsAdmitted(observations, policy, c); }
    GroupIsPopulated(observations);
    AdmittedInOrder(g, Ascending(g.Keys), policy);
    if Reporters(observations, key) != {} && |Reporters(observations, key)| >= policy.minDistinctPeers {
      QuorumAdmits(observations, policy, key);
      AdmittedIsListed(g, Ascending(g.Keys), policy, key);
    }
  }

  lemma QuorumAdmits(observations: seq<PeerObservation>, policy: QuorumPolicy, key: Key)
    requires policy.Valid()
    requires Reporters(observations, key) != {} && |Reporters(observations, key)| >= policy.minDistinctPeers
    ensures var g := Group(observations);
      key in g && g[key] != map[] && Admitted(key, g[key], policy).Some?
        && Admitted(key, g[key], policy).value.contentId == key
  {
    EntryIsReporters(observations, key);
    GroupIsPopulated(observations);
    var g: Grouped := Group(observations);
    assert |g[key]| == |g[key].Keys|;
  }

  // ---------------------------------------------------------------------------------------------
  // The quorum, over the regions probed
  // ---------------------------------------------------------------------------------------------

  type Regions = seq<seq<PeerObservation>>

  /** The k-th holding of the j-th observation of a region is `peer` reporting `key`. */
  predicate SpeaksIn(region: seq<PeerObservation>, peer: PeerId, key: Key, j: nat, k: nat) {
    && j < |region| && k < |region[j].holdings|
    && region[j].peerId == peer && region[j].holdings[k].contentId == key
  }

  /** The same in the i-th region. */
  predicate SpeaksAt(regions: Regions, peer: PeerId, key: Key, i: nat, j: nat, k: nat) {
    i < |regions| && SpeaksIn(regions[i], peer, key, j, k)
  }

  /** And it is the last such report: none comes later in that observation or in that region. */
  ghost predicate LastSpeaksIn(region: seq<PeerObservation>, peer: PeerId, key: Key, j: nat, k: nat) {
    && SpeaksIn(region, peer, key, j, k)
    && forall b: nat, c: nat :: SpeaksIn(region, peer, key, b, c) ==> b < j || (b == j && c <= k)
  }

  /** Nor is there one in any later region. */
  ghost predicate LastSpeaksAt(regions: Regions, peer: PeerId, key: Key, i: nat, j: nat, k: nat) {
    && i < |regions| && LastSpeaksIn(regions[i], peer, key, j, k)
    && forall a: nat, b: nat, c: nat :: SpeaksAt(regions, peer, key, a, b, c) ==> a <= i
  }

  /** The peers that report `key` in any region. */
  ghost function Speakers(regions: Regions, key: Key): (r: set<PeerId>)
    ensures forall p :: p in r <==> exists i: nat, j: nat, k: nat :: SpeaksAt(regions, p, key, i, j, k)
  {
    var r := set i, j, k | 0 <= i < |regions| && 0 <= j < |regions[i]| && 0 <= k < |regions[i][j].holdings|
                           && SpeaksAt(regions, regions[i][j].peerId, key, i, j, k) :: regions[i][j].peerId;
    r
  }

  lemma {:induction false} LastHeldAt(holdings: seq<ObservedCandidate>, key: Key) returns (at: Option<nat>)
    ensures at.Some? ==> at.value < |holdings| && LastHeld(holdings, key) == Some(holdings[at.value])
    ensures at.Some? ==> holdings[at.value].contentId == key
    ensures at.Some? ==> forall c :: at.value < c < |holdings| ==> holdings[c].contentId != key
    ensures at.None? ==> LastHeld(holdings, key).None?
    ensures at.None? ==> forall c :: 0 <= c < |holdings| ==> holdings[c].contentId != key
  {
    if holdings == [] {
      at := None;
    } else if holdings[|holdings| - 1].contentId == key {
      at := Some(|holdings| - 1);
    } else {
      at := LastHeldAt(holdings[..|holdings| - 1], key);
    }
  }

  lemma {:induction false} LastReportOfJoin(a: seq<PeerObservation>, b: seq<PeerObservation>, key: Key, peer: PeerId)
    ensures LastReport(a + b, key, peer)
         == if LastReport(b, key, peer).Some? then LastReport(b, key, peer) else LastReport(a, key, peer)
  {
    if b == [] {
      assert a + b == a;
    } else {
      var n := |b| - 1;
      assert (a + b)[..|a| + n] == a + b[..n];
      LastReportOfJoin(a, b[..n], key, peer);
    }
  }

  /** Where in one region a peer last reports a key. */
  lemma {:induction false} LastReportAt(region: seq<PeerObservation>, key: Key, peer: PeerId) returns (j: nat, k: nat)
    ensures LastReport(region, key, peer).Some? ==>
      LastSpeaksIn(region, peer, key, j, k) && LastReport(region, key, peer) == Some(region[j].holdings[k])
    ensures LastReport(region, key, peer).None? ==> forall b: nat, c: nat :: !SpeaksIn(region, peer, key, b, c)
  {
    if region == [] {
      j, k := 0, 0;
    } else {
      var n := |region| - 1;
      var at := LastHeldAt(region[n].holdings, key);
      if region[n].peerId == peer && at.Some? {
        j, k := n, at.value;
        assert SpeaksIn(region, peer, key, j, k);
      } else {
        j, k := LastReportAt(region[..n], key, peer);
        SpeaksInThePrefix(region, key, peer);
      }
    }
  }

  lemma SpeaksInThePrefix(region: seq<PeerObservation>, key: Key, peer: PeerId)
    requires region != []
    requires var o := region[|region| - 1];
      o.peerId == peer ==> forall c :: 0 <= c < |o.holdings| ==> o.holdings[c].contentId != key
    ensures forall b: nat, c: nat ::
      SpeaksIn(region, peer, key, b, c) <==> SpeaksIn(region[..|region| - 1], peer, key, b, c)
  {
  }

  /** Where over all regions a peer last reports a key: the report the grouping holds for it. */
  lemma {:induction false} LastReportOverRegions(regions: Regions, key: Key, peer: PeerId)
    returns (i: nat, j: nat, k: nat)
    ensures var last := LastReport(Joined(regions), key, peer);
      && (last.Some? ==> LastSpeaksAt(regions, peer, key, i, j, k) && last == Some(regions[i][j].holdings[k]))
      && (last.None? ==> forall a: nat, b: nat, c: nat :: !SpeaksAt(regions, peer, key, a, b, c))
  {
    if regions == [] {
      i, j, k := 0, 0, 0;
    } else {
      var n := |regions| - 1;
      LastReportOfJoin(Joined(regions[..n]), regions[n], key, peer);
      LastRegion(regions, key, peer);
      if LastReport(regions[n], key, peer).Some? {
        i := n;
        j, k := LastReportAt(regions[n], key, peer);
      } else {
        var _, _ := LastReportAt(regions[n], key, peer);
        i, j, k := LastReportOverRegions(regions[..n], key, peer);
      }
    }
  }

  /** A report is in the last region or before it. */
  lemma LastRegion(regions: Regions, key: Key, peer: PeerId)
    requires regions != []
    ensures var n := |regions| - 1;
      forall a: nat, b: nat, c: nat :: SpeaksAt(regions, peer, key, a, b, c)
        <==> if a == n then SpeaksIn(regions[n], peer, key, b, c) else SpeaksAt(regions[..n], peer, key, a, b, c)
  {
  }

  lemma SpeakersAreReporters(regions: Regions, key: Key)
    ensures Speakers(regions, key) == Reporters(Joined(regions), key)
  {
    forall p ensures p in Speakers(regions, key) <==> p in Reporters(Joined(regions), key) {
      ReportersReported(Joined(regions), key, p);
      var i, j, k := LastReportOverRegions(regions, key, p);
      assert LastReport(Joined(regions), key, p).Some? ==> SpeaksAt(regions, p, key, i, j, k);
    }
  }

  /** What one round samples, exactly: a key is a candidate when some peer reported it in some region and the distinct
    * peers that did, over all the regions together, reach the quorum; each once, in increasing order of id. */
  lemma QuorumOverRegions(regions: Regions, policy: QuorumPolicy, key: Key)
    requires policy.Valid()
    ensures var out := Reconciled(Joined(regions), policy);
      && InOrder(out)
      && ((exists c :: c in out && c.contentId == key)
          <==> Speakers(regions, key) != {} && |Speakers(regions, key)| >= policy.minDistinctPeers)
  {
    SpeakersAreReporters(regions, key);
    QuorumDecides(Joined(regions), policy, key);
  }

  predicate Lists(out: seq<Candidate>, key: Key) { exists c :: c in out && c.contentId == key }

  /** These candidates are in increasing order of id and are exactly the keys that reach the quorum over the regions. */
  ghost predicate DecidedByQuorum(regions: Regions, policy: QuorumPolicy, out: seq<Candidate>) {
    && InOrder(out)
    && forall key :: Lists(out, key)
         <==> Speakers(regions, key) != {} && |Speakers(regions, key)| >= policy.minDistinctPeers
  }

  lemma QuorumDecidesARound(regions: Regions, policy: QuorumPolicy)
    requires policy.Valid()
    ensures DecidedByQuorum(regions, policy, Reconciled(Joined(regions), policy))
  {
    QuorumOverRegions(regions, policy, 0);
    forall key ensures Lists(Reconciled(Joined(regions), policy), key)
      <==> Speakers(regions, key) != {} && |Speakers(regions, key)| >= policy.minDistinctPeers
    {
      QuorumOverRegions(regions, policy, key);
    }
  }

  /** The observations of one peer, in the order it made them. */
  function FromPeer(observations: seq<PeerObservation>, peer: PeerId): seq<PeerObservation> {
    if observations == [] then [] else
      var n := |observations| - 1;
      FromPeer(observations[..n], peer) + (if observations[n].peerId == peer then [observations[n]] else [])
  }

  lemma {:induction false} LastReportIsThePeersOwn(observations: seq<PeerObservation>, key: Key, peer: PeerId)
    ensures LastReport(observations, key, peer) == LastReport(FromPeer(observations, peer), key, peer)
  {
    if observations == [] {
    } else {
      var n := |observations| - 1;
      LastReportIsThePeersOwn(observations[..n], key, peer);
      var f := FromPeer(observations[..n], peer);
      if observations[n].peerId == peer {
        assert FromPeer(observations, peer) == f + [observations[n]];
        assert (f + [observations[n]])[..|f|] == f;
      } else {
        assert FromPeer(observations, peer) == f;
      }
    }
  }

  /** Reconciliation depends only on what each peer said in its own order: any interleaving of the peers,
    * and any split of the round into regions, gives the same candidates. */
  lemma ReconciliationIgnoresInterleaving(a: seq<PeerObservation>, b: seq<PeerObservation>, policy: QuorumPolicy)
    requires forall p :: FromPeer(a, p) == FromPeer(b, p)
    ensures Reconciled(a, policy) == Reconciled(b, policy)
  {
    forall k, p ensures Lookup(Group(a), k, p) == Lookup(Group(b), k, p) {
      GroupHoldsLastReports(a, k, p);
      GroupHoldsLastReports(b, k, p);
      LastReportIsThePeersOwn(a, k, p);
      LastReportIsThePeersOwn(b, k, p);
      assert FromPeer(a, p) == FromPeer(b, p);
    }
    SameLookupsSameGrouping(a, b);
  }

  lemma SameLookupsSameGrouping(a: seq<PeerObservation>, b: seq<PeerObservation>)
    requires forall k, p :: Lookup(Group(a), k, p) == Lookup(Group(b), k, p)
    ensures Group(a) == Group(b)
  {
    var g, h := Group(a), Group(b);
    GroupIsPopulated(a);
    GroupIsPopulated(b);
    forall k ensures Entry(g, k) == Entry(h, k) && (k in g <==> k in h) {
      forall p ensures (p in Entry(g, k) <==> p in Entry(h, k))
        && (p in Entry(g, k) ==> Entry(g, k)[p] == Entry(h, k)[p]) {
        assert Lookup(g, k, p) == Lookup(h, k, p);
      }
      if k in g { var p :| p in g[k]; assert p in Entry(h, k); }
      if k in h { var p :| p in h[k]; assert p in Entry(g, k); }
    }
    forall k | k in g ensures g[k] == h[k] { assert Entry(g, k) == Entry(h, k); }
  }

  // ---------------------------------------------------------------------------------------------
  // What lying peers can and cannot do
  // ---------------------------------------------------------------------------------------------

  /** The reporters whose count for a key is under, or over, a bound. */
  ghost function Under(perPeer: PerPeer, low: nat): set<PeerId> {
    set p | p in perPeer && perPeer[p].providerCount < low
  }

  ghost function Over(perPeer: PerPeer, high: nat): set<PeerId> {
    set p | p in perPeer && perPeer[p].providerCount > high
  }

  /** How many of these peers are in a set. */
  ghost function Chosen(peers: seq<PeerId>, s: set<PeerId>): nat {
    if peers == [] then 0 else Chosen(peers[..|peers| - 1], s) + (if peers[|peers| - 1] in s then 1 else 0)
  }

  lemma {:induction false} ChosenAgree(peers: seq<PeerId>, s: set<PeerId>, t: set<PeerId>)
    requires forall p :: p in peers ==> (p in s <==> p in t)
    ensures Chosen(peers, s) == Chosen(peers, t)
  {
    if peers == [] {
    } else {
      assert peers[|peers| - 1] in peers;
      assert forall p :: p in peers[..|peers| - 1] ==> p in peers;
      ChosenAgree(peers[..|peers| - 1], s, t);
    }
  }

  lemma {:induction false} ChosenIsTheSize(peers: seq<PeerId>, s: set<PeerId>)
    requires StrictlyIncreasing(peers) && forall p :: p in s ==> p in peers
    ensures Chosen(peers, s) == |s|
  {
    if peers == [] {
      assert s == {};
    } else {
      var n := |peers| - 1;
      var last := peers[n];
      assert peers == peers[..n] + [last];
      assert last !in peers[..n];
      ChosenIsTheSize(peers[..n], s - {last});
      ChosenAgree(peers[..n], s, s - {last});
    }
  }

  lemma {:induction false} CountsOfCounts(perPeer: PerPeer, peers: seq<PeerId>, low: nat, high: nat)
    requires forall p :: p in peers ==> p in perPeer
    ensures CountBelow(CountsOf(perPeer, peers), low) == Chosen(peers, Under(perPeer, low))
    ensures CountAbove(CountsOf(perPeer, peers), high) == Chosen(peers, Over(perPeer, high))
  {
    if peers == [] {
    } else {
      var n := |peers| - 1;
      CountsOfCounts(perPeer, peers[..n], low, high);
      var c := CountsOf(perPeer, peers[..n]);
      assert (c + [perPeer[peers[n]].providerCount])[..|c|] == c;
    }
  }

  /** Who it takes to move the count of an admitted key, exactly. */
  lemma TheCountMovesExactlyWhen(key: Key, perPeer: PerPeer, policy: QuorumPolicy, low: nat, high: nat)
    requires perPeer != map[] && Admitted(key, perPeer, policy).Some?
    ensures var count := Admitted(key, perPeer, policy).value.knownProviderCount;
      && (count < low <==> 2 * |Under(perPeer, low)| >= |perPeer|)
      && (count > high <==> 2 * |Over(perPeer, high)| > |perPeer|)
  {
    var peers := Ascending(perPeer.Keys);
    CountsOfSize(perPeer, peers);
    CountsOfCounts(perPeer, peers, low, high);
    ChosenIsTheSize(peers, Under(perPeer, low));
    ChosenIsTheSize(peers, Over(perPeer, high));
    LowerMedianIsRobust(CountsOf(perPeer, peers), low, high);
  }

  /** The Byzantine bound on an admitted candidate, whatever the liars said and however the round was
    * interleaved: the count is at least the least honest report while liars are a strict minority of the
    * key's distinct reporters, and at most the greatest honest report even when they are exactly half. */
  lemma LiarsCannotMoveTheCount(observations: seq<PeerObservation>, policy: QuorumPolicy, c: Candidate,
                                liars: set<PeerId>, low: nat, high: nat)
    requires c in Reconciled(observations, policy)
    requires forall p :: p in Reporters(observations, c.contentId) && p !in liars ==>
      var r := LastReport(observations, c.contentId, p); r.Some? ==> low <= r.value.providerCount <= high
    ensures var reporters := Reporters(observations, c.contentId);
      && (2 * |reporters * liars| < |reporters| ==> low <= c.knownProviderCount)
      && (2 * |reporters * liars| <= |reporters| ==> c.knownProviderCount <= high)
  {
    var key: Key := c.contentId;
    var g: Grouped := Group(observations);
    CandidateIsAdmitted(observations, policy, c);
    var reporters := Reporters(observations, key);
    forall p: PeerId | p in g[key] && p !in liars ensures low <= g[key][p].providerCount <= high {
      GroupHoldsLastReports(observations, key, p);
      assert p in reporters;
    }
    SubsetSize(Under(g[key], low), reporters * liars);
    SubsetSize(Over(g[key], high), reporters * liars);
    TheCountMovesExactlyWhen(key, g[key], policy, low, high);
  }

  /** The lower bound genuinely needs the strict minority: whenever half of a key's reporters say less than
    * every honest one, the candidate's count is below every honest report. */
  lemma HalfLiarsDragTheCountDown(observations: seq<PeerObservation>, policy: QuorumPolicy, c: Candidate,
                                  liars: set<PeerId>, low: nat)
    requires c in Reconciled(observations, policy)
    requires var reporters := Reporters(observations, c.contentId); liars <= reporters && 2 * |liars| >= |reporters|
    requires forall p :: p in liars ==>
      var r := LastReport(observations, c.contentId, p); r.Some? && r.value.providerCount < low
    ensures c.knownProviderCount < low
  {
    var key: Key := c.contentId;
    var g: Grouped := Group(observations);
    CandidateIsAdmitted(observations, policy, c);
    forall p | p in liars ensures p in Under(g[key], low) { GroupHoldsLastReports(observations, key, p); }
    SubsetSize(liars, Under(g[key], low));
    TheCountMovesExactlyWhen(key, g[key], policy, low, low);
  }

  /** One observation of one key alone, and what it says. */
  predicate ReportsOnly(o: PeerObservation, key: Key) { |o.holdings| == 1 && o.holdings[0].contentId == key }

  function CountIn(o: PeerObservation): nat { if o.holdings == [] then 0 else o.holdings[0].providerCount }

  predicate FourPeers(round: seq<PeerObservation>, key: Key) {
    |round| == 4 && (forall i :: 0 <= i < 4 ==> ReportsOnly(round[i], key))
      && (forall i, j :: 0 <= i < j < 4 ==> round[i].peerId != round[j].peerId)
  }

  /** Such a round under the shipped quorum of three: any two honest reports and any two lies below both. */
  lemma TwoHonestTwoLiars(round: seq<PeerObservation>, key: Key)
    requires FourPeers(round, key)
    requires forall h, l :: 0 <= h < 2 <= l < 4 ==> CountIn(round[l]) < CountIn(round[h])
    ensures exists c :: c in Reconciled(round, DEFAULT_QUORUM) && c.contentId == key
                        && c.knownProviderCount < CountIn(round[0]) && c.knownProviderCount < CountIn(round[1])
  {
    FourReporters(round, key);
    QuorumDecides(round, DEFAULT_QUORUM, key);
    var c :| c in Reconciled(round, DEFAULT_QUORUM) && c.contentId == key;
    LiarsOfFour(round, key, c, CountIn(round[0]));
    LiarsOfFour(round, key, c, CountIn(round[1]));
  }

  lemma LiarsOfFour(round: seq<PeerObservation>, key: Key, c: Candidate, low: nat)
    requires FourPeers(round, key) && c in Reconciled(round, DEFAULT_QUORUM) && c.contentId == key
    requires CountIn(round[2]) < low && CountIn(round[3]) < low
    ensures c.knownProviderCount < low
  {
    FourReporters(round, key);
    LastOfFour(round, key, 2);
    LastOfFour(round, key, 3);
    var liars := {round[2].peerId, round[3].peerId};
    assert |liars| == 2;
    HalfLiarsDragTheCountDown(round, DEFAULT_QUORUM, c, liars, low);
  }

  lemma FourReporters(round: seq<PeerObservation>, key: Key)
    requires FourPeers(round, key)
    ensures Reporters(round, key) == {round[0].peerId, round[1].peerId, round[2].peerId, round[3].peerId}
    ensures |Reporters(round, key)| == 4
  {
    forall i | 0 <= i < 4 ensures round[i].peerId in Reporters(round, key) {
      assert ReportsOnly(round[i], key);
      assert LastHeld(round[i].holdings, key).Some?;
    }
    assert |{round[0].peerId, round[1].peerId, round[2].peerId, round[3].peerId}| == 4;
  }

  lemma {:induction false} LastOfFour(round: seq<PeerObservation>, key: Key, i: nat)
    requires FourPeers(round, key) && 2 <= i < 4
    ensures LastReport(round, key, round[i].peerId) == Some(round[i].holdings[0])
  {
    assert ReportsOnly(round[2], key) && ReportsOnly(round[3], key);
    assert LastHeld(round[i].holdings, key) == Some(round[i].holdings[0]);
    assert round[..3][2] == round[2];
  }

  /** The reporters that gave a size at all, and those whose size is over a bound. */
  ghost function Sizers(perPeer: PerPeer): set<PeerId> { set p | p in perPeer && perPeer[p].sizeHint.Some? }

  ghost function SizersOver(perPeer: PerPeer, high: nat): set<PeerId> {
    set p | p in perPeer && perPeer[p].sizeHint.Some? && perPeer[p].sizeHint.value > high
  }

  ghost function SizersUnder(perPeer: PerPeer, low: nat): set<PeerId> {
    set p | p in perPeer && perPeer[p].sizeHint.Some? && perPeer[p].sizeHint.value < low
  }

  lemma {:induction false} SizesOfCounts(perPeer: PerPeer, peers: seq<PeerId>, low: nat, high: nat)
    requires forall p :: p in peers ==> p in perPeer
    ensures |SizesOf(perPeer, peers)| == Chosen(peers, Sizers(perPeer))
    ensures CountBelow(SizesOf(perPeer, peers), low) == Chosen(peers, SizersUnder(perPeer, low))
    ensures CountAbove(SizesOf(perPeer, peers), high) == Chosen(peers, SizersOver(perPeer, high))
  {
    if peers == [] {
    } else {
      var n := |peers| - 1;
      SizesOfCounts(perPeer, peers[..n], low, high);
      var z, hint := SizesOf(perPeer, peers[..n]), perPeer[peers[n]].sizeHint;
      if hint.Some? {
        assert (z + [hint.value])[..|z|] == z;
      } else {
        assert z + [] == z;
      }
    }
  }

  /** Who it takes to move the size: only the reporters that gave one are weighed, so it is they, and not
    * the key's reporters as a whole, that the liars must stay a minority of. */
  lemma TheSizeMovesExactlyWhen(key: Key, perPeer: PerPeer, policy: QuorumPolicy, low: nat, high: nat)
    requires perPeer != map[] && Admitted(key, perPeer, policy).Some?
    ensures var size := Admitted(key, perPeer, policy).value.sizeHint;
      && (size.None? <==> Sizers(perPeer) == {})
      && (size.Some? ==>
            && (size.value < low <==> 2 * |SizersUnder(perPeer, low)| >= |Sizers(perPeer)|)
            && (size.value > high <==> 2 * |SizersOver(perPeer, high)| > |Sizers(perPeer)|))
  {
    var peers := Ascending(perPeer.Keys);
    SizesOfCounts(perPeer, peers, low, high);
    ChosenIsTheSize(peers, Sizers(perPeer));
    ChosenIsTheSize(peers, SizersUnder(perPeer, low));
    ChosenIsTheSize(peers, SizersOver(perPeer, high));
    CountsOfSize(perPeer, peers);
    if SizesOf(perPeer, peers) != [] { LowerMedianIsRobust(SizesOf(perPeer, peers), low, high); }
  }

  /** The peers whose last report of `key` over all regions counts below, or above, a bound, gives a size at all, or one
    * below or above a bound. */
  ghost function CountingUnder(regions: Regions, key: Key, low: nat): set<PeerId> {
    set p | p in Speakers(regions, key) && exists i: nat, j: nat, k: nat ::
      LastSpeaksAt(regions, p, key, i, j, k) && regions[i][j].holdings[k].providerCount < low
  }

  ghost function CountingOver(regions: Regions, key: Key, high: nat): set<PeerId> {
    set p | p in Speakers(regions, key) && exists i: nat, j: nat, k: nat ::
      LastSpeaksAt(regions, p, key, i, j, k) && regions[i][j].holdings[k].providerCount > high
  }

  ghost function Sizing(regions: Regions, key: Key): set<PeerId> {
    set p | p in Speakers(regions, key) && exists i: nat, j: nat, k: nat ::
      LastSpeaksAt(regions, p, key, i, j, k) && regions[i][j].holdings[k].sizeHint.Some?
  }

  ghost function SizingUnder(regions: Regions, key: Key, low: nat): set<PeerId> {
    set p | p in Speakers(regions, key) && exists i: nat, j: nat, k: nat ::
      LastSpeaksAt(regions, p, key, i, j, k)
      && (var size := regions[i][j].holdings[k].sizeHint; size.Some? && size.value < low)
  }

  ghost function SizingOver(regions: Regions, key: Key, high: nat): set<PeerId> {
    set p | p in Speakers(regions, key) && exists i: nat, j: nat, k: nat ::
      LastSpeaksAt(regions, p, key, i, j, k)
      && (var size := regions[i][j].holdings[k].sizeHint; size.Some? && size.value > high)
  }

  /** The report the grouping holds for a peer is its last one, and it has only one last one. */
  lemma OneLastReport(regions: Regions, key: Key, perPeer: PerPeer, p: PeerId)
    requires perPeer == Entry(Group(Joined(regions)), key)
    ensures p in Speakers(regions, key) <==> p in perPeer
    ensures p in perPeer ==> exists i: nat, j: nat, k: nat :: LastSpeaksAt(regions, p, key, i, j, k)
    ensures forall i: nat, j: nat, k: nat :: LastSpeaksAt(regions, p, key, i, j, k) ==>
      p in perPeer && perPeer[p] == regions[i][j].holdings[k]
  {
    SpeakersAreReporters(regions, key);
    EntryIsReporters(Joined(regions), key);
    GroupHoldsLastReports(Joined(regions), key, p);
    var i, j, k := LastReportOverRegions(regions, key, p);
    forall a: nat, b: nat, c: nat | LastSpeaksAt(regions, p, key, a, b, c)
      ensures p in perPeer && perPeer[p] == regions[a][b].holdings[c]
    {
      assert SpeaksAt(regions, p, key, a, b, c);
      assert SpeaksAt(regions, p, key, i, j, k);
      assert a == i && b == j && c == k;
    }
  }

  lemma TheSamePeers(regions: Regions, key: Key, perPeer: PerPeer, low: nat, high: nat)
    requires perPeer == Entry(Group(Joined(regions)), key)
    ensures Speakers(regions, key) == perPeer.Keys
    ensures CountingUnder(regions, key, low) == Under(perPeer, low)
    ensures CountingOver(regions, key, high) == Over(perPeer, high)
    ensures Sizing(regions, key) == Sizers(perPeer)
    ensures SizingUnder(regions, key, low) == SizersUnder(perPeer, low)
    ensures SizingOver(regions, key, high) == SizersOver(perPeer, high)
  {
    forall p
      ensures p in Speakers(regions, key) <==> p in perPeer
      ensures p in CountingUnder(regions, key, low) <==> p in Under(perPeer, low)
      ensures p in CountingOver(regions, key, high) <==> p in Over(perPeer, high)
      ensures p in Sizing(regions, key) <==> p in Sizers(perPeer)
      ensures p in SizingUnder(regions, key, low) <==> p in SizersUnder(perPeer, low)
      ensures p in SizingOver(regions, key, high) <==> p in SizersOver(perPeer, high)
    {
      OneLastReport(regions, key, perPeer, p);
    }
  }

  /** What a sampled candidate says, exactly: each peer is weighed once, by its last report over all the regions. The
    * count is below a bound when half of them or more are, and above one when more than half are; and the size likewise
    * among those that give one, with none when nobody does. */
  lemma CandidatesWeighLastReports(regions: Regions, policy: QuorumPolicy, c: Candidate, low: nat, high: nat)
    requires c in Reconciled(Joined(regions), policy)
    ensures var key, peers := c.contentId, Speakers(regions, c.contentId);
      && (c.knownProviderCount < low <==> 2 * |CountingUnder(regions, key, low)| >= |peers|)
      && (c.knownProviderCount > high <==> 2 * |CountingOver(regions, key, high)| > |peers|)
      && (c.sizeHint.None? <==> Sizing(regions, key) == {})
      && (c.sizeHint.Some? ==>
            && (c.sizeHint.value < low <==> 2 * |SizingUnder(regions, key, low)| >= |Sizing(regions, key)|)
            && (c.sizeHint.value > high <==> 2 * |SizingOver(regions, key, high)| > |Sizing(regions, key)|))
  {
    CandidateIsAdmitted(Joined(regions), policy, c);
    var perPeer: PerPeer := Group(Joined(regions))[c.contentId];
    TheSamePeers(regions, c.contentId, perPeer, low, high);
    assert |perPeer| == |perPeer.Keys|;
    TheCountMovesExactlyWhen(c.contentId, perPeer, policy, low, high);
    TheSizeMovesExactlyWhen(c.contentId, perPeer, policy, low, high);
  }

  /** So a lone liar among any number of honest reporters sets the size, when none of the others gives one. */
  lemma OneLiarCanSetTheSize(key: Key, perPeer: PerPeer, policy: QuorumPolicy, liar: PeerId)
    requires liar in perPeer && perPeer[liar].sizeHint.Some? && Admitted(key, perPeer, policy).Some?
    requires forall p :: p in perPeer && p != liar ==> perPeer[p].sizeHint.None?
    ensures Admitted(key, perPeer, policy).value.sizeHint == perPeer[liar].sizeHint
  {
    var lie := perPeer[liar].sizeHint.value;
    TheSizeMovesExactlyWhen(key, perPeer, policy, lie, lie);
    assert liar in Sizers(perPeer);
    assert SizersUnder(perPeer, lie) == {} && SizersOver(perPeer, lie) == {};
    SubsetSize({liar}, Sizers(perPeer));
  }
}
