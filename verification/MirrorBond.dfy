/** The outermost provider-locator layer: each located holder's claimed mirror coin is read against a chain,
  * within a budget, and the slate is stably reordered so that proven bonds come first.
  *
  * The chain may answer every read differently, even two reads of one claim. */
module MirrorBond {
  import opened Common
  import opened ProviderRecords
  import S = StableSort

  datatype BondVerdict = Bonded | Unverified | Unbonded

  /** What reading the chain for a record answers: the read is one of its own for each record of the slate,
    * so two records with one claim may be answered differently. */
  type Verifier = (nat, string, CoinId) -> BondVerdict

  const MAX_VERIFIED_PER_LOCATE: nat := 8

  function CreditRank(v: BondVerdict): nat {
    match v
    case Bonded => 0
    case Unverified => 1
    case Unbonded => 1
  }

  // ---------------------------------------------------------------------------------------------
  // What the ranking decides, record by record
  // ---------------------------------------------------------------------------------------------

  /** How many of these records point at a coin. */
  function Claims(slate: Slate): nat {
    if slate == [] then 0 else
      Claims(slate[..|slate| - 1]) + (if slate[|slate| - 1].coin.Some? then 1 else 0)
  }

  /** The i-th record is read against the chain: it points at a coin and the budget still has room. */
  predicate Read(slate: Slate, budget: nat, i: nat)
    requires i < |slate|
  {
    slate[i].coin.Some? && Claims(slate[..i]) < budget
  }

  predicate Credited(slate: Slate, verify: Verifier, budget: nat, i: nat)
    requires i < |slate|
  {
    Read(slate, budget, i) && verify(i, slate[i].peerId, slate[i].coin.value) == Bonded
  }

  /** The i-th record is promoted: it is the first credited record of its peer. */
  predicate Promoted(slate: Slate, verify: Verifier, budget: nat, i: nat)
    requires i < |slate|
  {
    && Credited(slate, verify, budget, i)
    && forall j :: 0 <= j < i && Credited(slate, verify, budget, j) ==>
        AsciiLower(slate[j].peerId) != AsciiLower(slate[i].peerId)
  }

  function Flags(slate: Slate, verify: Verifier, budget: nat): seq<bool> {
    seq(|slate|, i requires 0 <= i < |slate| => Promoted(slate, verify, budget, i))
  }

  /** The records whose flag is `want`, in slate order. */
  function Pick(slate: Slate, flags: seq<bool>, want: bool): Slate
    requires |flags| == |slate|
  {
    if slate == [] then [] else
      var n := |slate| - 1;
      Pick(slate[..n], flags[..n], want) + (if flags[n] == want then [slate[n]] else [])
  }

  /** The promoted records in slate order, then the rest in slate order. */
  function Partition(slate: Slate, flags: seq<bool>): Slate
    requires |flags| == |slate|
  {
    Pick(slate, flags, true) + Pick(slate, flags, false)
  }

  // ---------------------------------------------------------------------------------------------
  // The code: collect ranks in one pass, then sort by rank
  // ---------------------------------------------------------------------------------------------

  type Ranked = seq<(nat, ProviderRecord)>

  function RankOf(r: (nat, ProviderRecord)): int { r.0 }

  function SortByRank(s: Ranked): Ranked { S.Sorted(s, RankOf) }

  function Records(s: Ranked): Slate {
    if s == [] then [] else Records(s[..|s| - 1]) + [s[|s| - 1].1]
  }

  /** The slate paired with the rank each record's flag stands for. */
  function Paired(slate: Slate, flags: seq<bool>): (r: Ranked)
    requires |flags| == |slate|
    ensures |r| == |slate|
  {
    if slate == [] then [] else
      var n := |slate| - 1;
      Paired(slate[..n], flags[..n]) + [(if flags[n] then CreditRank(Bonded) else CreditRank(Unverified), slate[n])]
  }

  /** The pass so far: chain reads made, folded ids of the peers credited, and the rank of each record. */
  datatype Pass = Pass(verified: nat, credited: set<string>, flags: seq<bool>)

  function PassStep(p: Pass, record: ProviderRecord, verify: Verifier, budget: nat): Pass {
    if record.coin.None? || p.verified == budget then p.(flags := p.flags + [false])
    else
      var folded := AsciiLower(record.peerId);
      if verify(|p.flags|, record.peerId, record.coin.value) == Bonded then
        Pass(p.verified + 1, p.credited + {folded}, p.flags + [folded !in p.credited])
      else Pass(p.verified + 1, p.credited, p.flags + [false])
  }

  function PassOver(slate: Slate, verify: Verifier, budget: nat): (p: Pass)
    ensures |p.flags| == |slate|
  {
    if slate == [] then Pass(0, {}, []) else
      PassStep(PassOver(slate[..|slate| - 1], verify, budget), slate[|slate| - 1], verify, budget)
  }

  method FindProviders(inner: Result<Slate>, verifier: Option<Verifier>)
    returns (r: Result<Slate>, verified: nat)
    ensures inner.Err? || verifier.None? ==> r == inner && verified == 0
    ensures inner.Ok? && verifier.Some? ==>
      && r == Ok(Partition(inner.value, Flags(inner.value, verifier.value, MAX_VERIFIED_PER_LOCATE)))
      && verified == Min(MAX_VERIFIED_PER_LOCATE, Claims(inner.value))
  {
    if inner.Err? || verifier.None? {
      return inner, 0;
    }
    var ranked;
    ranked, verified := RankAll(inner.value, verifier.value);
    PassMeetsItsMeaning(inner.value, verifier.value, MAX_VERIFIED_PER_LOCATE);
    SortingIsPartitioning(inner.value, PassOver(inner.value, verifier.value, MAX_VERIFIED_PER_LOCATE).flags);
    r := Ok(Records(SortByRank(ranked)));
  }

  /** The one pass over the slate: each record with its rank, in slate order. */
  method RankAll(found: Slate, verify: Verifier) returns (ranked: Ranked, verified: nat)
    ensures var p := PassOver(found, verify, MAX_VERIFIED_PER_LOCATE);
      ranked == Paired(found, p.flags) && verified == p.verified
  {
    ranked, verified := [], 0;
    var promotedPeers: set<string> := {};
    ghost var pass := Pass(0, {}, []);
    for k := 0 to |found|
      invariant pass == PassOver(found[..k], verify, MAX_VERIFIED_PER_LOCATE)
      invariant pass.verified == verified && pass.credited == promotedPeers
      invariant ranked == Paired(found[..k], pass.flags)
    {
      assert found[..k + 1][..k] == found[..k];
      var record := found[k];
      ghost var earlier := pass.flags;
      pass := PassStep(pass, record, verify, MAX_VERIFIED_PER_LOCATE);
      assert pass.flags[..k] == earlier;
      var claimed := record.coin;
      if claimed.None? || verified == MAX_VERIFIED_PER_LOCATE {
        ranked := ranked + [(CreditRank(Unverified), record)];
        continue;
      }
      verified := verified + 1;
      var rank := CreditRank(verify(k, record.peerId, claimed.value));
      if rank == CreditRank(Bonded) {
        var folded := AsciiLower(record.peerId);
        if folded in promotedPeers {
          rank := CreditRank(Unverified);
        }
        promotedPeers := promotedPeers + {folded};
      }
      ranked := ranked + [(rank, record)];
    }
    assert found[..|found|] == found;
  }

  lemma ReadOfAPrefix(slate: Slate, n: nat, verify: Verifier, budget: nat, i: nat)
    requires i < n <= |slate|
    ensures Credited(slate[..n], verify, budget, i) == Credited(slate, verify, budget, i)
    ensures Read(slate[..n], budget, i) == Read(slate, budget, i)
  {
    assert slate[..n][..i] == slate[..i];
  }

  lemma PromotedInAPrefix(slate: Slate, n: nat, verify: Verifier, budget: nat, i: nat)
    requires i < n <= |slate|
    ensures Promoted(slate[..n], verify, budget, i) == Promoted(slate, verify, budget, i)
  {
    forall j | 0 <= j <= i ensures Credited(slate[..n], verify, budget, j) == Credited(slate, verify, budget, j) {
      ReadOfAPrefix(slate, n, verify, budget, j);
    }
  }

  /** What the pass has credited so far, and how the next record changes it. */
  ghost predicate CreditsAre(credited: set<string>, slate: Slate, verify: Verifier, budget: nat) {
    forall s :: s in credited <==>
      exists j :: 0 <= j < |slate| && Credited(slate, verify, budget, j) && AsciiLower(slate[j].peerId) == s
  }

  lemma CreditsOneMore(before: set<string>, after: set<string>, slate: Slate, verify: Verifier, budget: nat)
    requires slate != [] && CreditsAre(before, slate[..|slate| - 1], verify, budget)
    requires var n := |slate| - 1;
      after == before + if Credited(slate, verify, budget, n) then {AsciiLower(slate[n].peerId)} else {}
    ensures CreditsAre(after, slate, verify, budget)
  {
    var n := |slate| - 1;
    forall i | 0 <= i < n ensures Credited(slate[..n], verify, budget, i) == Credited(slate, verify, budget, i) {
      ReadOfAPrefix(slate, n, verify, budget, i);
    }
    forall s ensures s in after <==>
      exists j :: 0 <= j < |slate| && Credited(slate, verify, budget, j) && AsciiLower(slate[j].peerId) == s
    {
      if s in before {
        var j :| 0 <= j < n && Credited(slate[..n], verify, budget, j) && AsciiLower(slate[..n][j].peerId) == s;
        assert slate[..n][j] == slate[j];
      }
      if j :| 0 <= j < n && Credited(slate, verify, budget, j) && AsciiLower(slate[j].peerId) == s {
        assert slate[..n][j] == slate[j];
      }
    }
  }

  /** The last record is promoted exactly when it is credited and its peer was not before. */
  lemma PromotedLast(credited: set<string>, slate: Slate, verify: Verifier, budget: nat)
    requires slate != [] && CreditsAre(credited, slate[..|slate| - 1], verify, budget)
    ensures var n := |slate| - 1;
      Promoted(slate, verify, budget, n) <==>
        Credited(slate, verify, budget, n) && AsciiLower(slate[n].peerId) !in credited
  {
    var n := |slate| - 1;
    forall i | 0 <= i < n
      ensures Credited(slate[..n], verify, budget, i) == Credited(slate, verify, budget, i)
      ensures slate[..n][i] == slate[i]
    {
      ReadOfAPrefix(slate, n, verify, budget, i);
    }
  }

  lemma FlagsOneMore(slate: Slate, verify: Verifier, budget: nat)
    requires slate != []
    ensures var n := |slate| - 1;
      Flags(slate, verify, budget) == Flags(slate[..n], verify, budget) + [Promoted(slate, verify, budget, n)]
  {
    var n := |slate| - 1;
    forall i | 0 <= i < n ensures Flags(slate, verify, budget)[i] == Flags(slate[..n], verify, budget)[i] {
      PromotedInAPrefix(slate, n, verify, budget, i);
    }
  }

  lemma ClaimsOneMore(slate: Slate)
    requires slate != []
    ensures Claims(slate) == Claims(slate[..|slate| - 1]) + if slate[|slate| - 1].coin.Some? then 1 else 0
  {
  }

  /** What one more record does to the pass: it is credited exactly when it is read and proven, and promoted when its
    * peer had not been credited. */
  lemma PassReads(before: Pass, slate: Slate, verify: Verifier, budget: nat)
    requires slate != [] && before.verified == Min(budget, Claims(slate[..|slate| - 1]))
    requires |before.flags| == |slate| - 1
    ensures var n, p := |slate| - 1, PassStep(before, slate[|slate| - 1], verify, budget);
      var credited, folded := Credited(slate, verify, budget, n), AsciiLower(slate[n].peerId);
      && p.verified == Min(budget, Claims(slate))
      && p.credited == before.credited + (if credited then {folded} else {})
      && p.flags == before.flags + [credited && folded !in before.credited]
  {
    ClaimsOneMore(slate);
    var n := |slate| - 1;
    assert Read(slate, budget, n) <==> slate[n].coin.Some? && before.verified != budget;
  }

  /** The one-pass bookkeeping computes exactly the declared meaning: a record is promoted when it is the
    * first credited record of its peer, and the chain is read once per claim while the budget lasts. */
  lemma {:induction false} PassMeetsItsMeaning(slate: Slate, verify: Verifier, budget: nat)
    ensures var p := PassOver(slate, verify, budget);
      && p.verified == Min(budget, Claims(slate)) && p.flags == Flags(slate, verify, budget)
      && CreditsAre(p.credited, slate, verify, budget)
  {
    if slate == [] {
    } else {
      var n := |slate| - 1;
      PassMeetsItsMeaning(slate[..n], verify, budget);
      var before, p := PassOver(slate[..n], verify, budget), PassOver(slate, verify, budget);
      PassReads(before, slate, verify, budget);
      CreditsOneMore(before.credited, p.credited, slate, verify, budget);
      PromotedLast(before.credited, slate, verify, budget);
      FlagsOneMore(slate, verify, budget);
    }
  }

  /** Sorting the two ranks stably is the same as pulling the promoted records to the front. */
  lemma SortingIsPartitioning(slate: Slate, flags: seq<bool>)
    requires |flags| == |slate|
    ensures Records(SortByRank(Paired(slate, flags))) == Partition(slate, flags)
  {
    SortedShape(slate, flags);
    RecordsOfJoin(Tag(0, Pick(slate, flags, true)), Tag(1, Pick(slate, flags, false)));
    RecordsOfTag(0, Pick(slate, flags, true));
    RecordsOfTag(1, Pick(slate, flags, false));
  }

  function Tag(rank: nat, s: Slate): (r: Ranked)
    ensures |r| == |s| && forall i :: 0 <= i < |s| ==> r[i] == (rank, s[i])
  {
    if s == [] then [] else Tag(rank, s[..|s| - 1]) + [(rank, s[|s| - 1])]
  }

  /** Promoted records ahead of baseline ones, ranks and all. */
  function Sorted(front: Slate, back: Slate): (r: Ranked)
    ensures |r| == |front| + |back|
  {
    Tag(0, front) + Tag(1, back)
  }

  lemma TagOneMore(rank: nat, s: Slate, x: ProviderRecord)
    ensures Tag(rank, s + [x]) == Tag(rank, s) + [(rank, x)]
  {
    assert (s + [x])[..|s|] == s;
  }

  lemma {:induction false} SortedShape(slate: Slate, flags: seq<bool>)
    requires |flags| == |slate|
    ensures SortByRank(Paired(slate, flags)) == Sorted(Pick(slate, flags, true), Pick(slate, flags, false))
  {
    if slate == [] {
    } else {
      var n := |slate| - 1;
      SortedShape(slate[..n], flags[..n]);
      var front, back := Pick(slate[..n], flags[..n], true), Pick(slate[..n], flags[..n], false);
      assert Paired(slate, flags)[..n] == Paired(slate[..n], flags[..n]);
      if flags[n] {
        InsertFront(front, back, slate[n]);
      } else {
        InsertBack(front, back, slate[n]);
      }
    }
  }

  lemma InsertBack(front: Slate, back: Slate, x: ProviderRecord)
    ensures S.Insert(Sorted(front, back), (1, x), RankOf) == Sorted(front, back + [x])
  {
    TagOneMore(1, back, x);
    assert Sorted(front, back) + [(1, x)] == Sorted(front, back + [x]);
  }

  lemma {:induction false} InsertFront(front: Slate, back: Slate, x: ProviderRecord)
    ensures S.Insert(Sorted(front, back), (0, x), RankOf) == Sorted(front + [x], back)
  {
    if back == [] {
      TagOneMore(0, front, x);
      assert Sorted(front, back) == Tag(0, front) && Sorted(front + [x], back) == Tag(0, front + [x]);
    } else {
      var m := |back| - 1;
      InsertFront(front, back[..m], x);
      SortedOneMore(front, back[..m], back[m]);
      SortedOneMore(front + [x], back[..m], back[m]);
      assert back == back[..m] + [back[m]];
      assert Sorted(front, back)[..|front| + m] == Sorted(front, back[..m]);
    }
  }

  lemma SortedOneMore(front: Slate, back: Slate, x: ProviderRecord)
    ensures Sorted(front, back + [x]) == Sorted(front, back) + [(1, x)]
  {
    TagOneMore(1, back, x);
  }

  lemma {:induction false} RecordsOfJoin(a: Ranked, b: Ranked)
    ensures Records(a + b) == Records(a) + Records(b)
  {
    if b == [] {
      assert a + b == a;
    } else {
      RecordsOfJoin(a, b[..|b| - 1]);
      assert (a + b)[..|a + b| - 1] == a + b[..|b| - 1];
    }
  }

  lemma {:induction false} RecordsOfTag(rank: nat, s: Slate)
    ensures Records(Tag(rank, s)) == s
  {
    if s == [] {
    } else {
      RecordsOfTag(rank, s[..|s| - 1]);
    }
  }

  // ---------------------------------------------------------------------------------------------
  // Where each record ends up
  // ---------------------------------------------------------------------------------------------

  function CountFlags(flags: seq<bool>, want: bool): nat {
    if flags == [] then 0 else
      CountFlags(flags[..|flags| - 1], want) + (if flags[|flags| - 1] == want then 1 else 0)
  }

  /** The position the i-th record of the slate takes in the answer. */
  function Place(flags: seq<bool>, i: nat): nat
    requires i < |flags|
  {
    if flags[i] then CountFlags(flags[..i], true)
    else CountFlags(flags, true) + CountFlags(flags[..i], false)
  }

  lemma {:induction false} PickKeepsOrder(slate: Slate, flags: seq<bool>, want: bool, i: nat)
    requires |flags| == |slate| && i < |slate| && flags[i] == want
    ensures |Pick(slate, flags, want)| == CountFlags(flags, want)
    ensures CountFlags(flags[..i], want) < CountFlags(flags, want)
    ensures Pick(slate, flags, want)[CountFlags(flags[..i], want)] == slate[i]
  {
    var n := |slate| - 1;
    PickSize(slate[..n], flags[..n], want);
    if i == n {
    } else {
      PickKeepsOrder(slate[..n], flags[..n], want, i);
      assert flags[..n][..i] == flags[..i];
    }
  }

  lemma {:induction false} PickSize(slate: Slate, flags: seq<bool>, want: bool)
    requires |flags| == |slate|
    ensures |Pick(slate, flags, want)| == CountFlags(flags, want)
  {
    if slate == [] {
    } else {
      PickSize(slate[..|slate| - 1], flags[..|slate| - 1], want);
    }
  }

  lemma {:induction false} CountsAddUp(flags: seq<bool>)
    ensures CountFlags(flags, true) + CountFlags(flags, false) == |flags|
  {
    if flags == [] {
    } else {
      CountsAddUp(flags[..|flags| - 1]);
    }
  }

  lemma {:induction false} CountsGrow(flags: seq<bool>, want: bool, i: nat, j: nat)
    requires i < j <= |flags|
    ensures CountFlags(flags[..i], want) <= CountFlags(flags[..j], want)
    ensures flags[i] == want ==> CountFlags(flags[..i], want) < CountFlags(flags[..j], want)
  {
    assert flags[..j][..j - 1] == flags[..j - 1];
    if i == j - 1 {
    } else {
      CountsGrow(flags, want, i, j - 1);
    }
  }

  /** The answer is the slate rearranged: every record sits at its place, and two records never share one,
    * so nothing is dropped, invented or repeated. Promoted records come before the rest, and records of
    * one tier keep the order their source gave them. */
  lemma PartitionIsAStablePermutation(slate: Slate, flags: seq<bool>, i: nat, j: nat)
    requires |flags| == |slate| && i < j < |slate|
    ensures |Partition(slate, flags)| == |slate|
    ensures Place(flags, i) < |slate| && Partition(slate, flags)[Place(flags, i)] == slate[i]
    ensures Place(flags, j) < |slate| && Partition(slate, flags)[Place(flags, j)] == slate[j]
    ensures if flags[j] && !flags[i] then Place(flags, j) < Place(flags, i) else Place(flags, i) < Place(flags, j)
  {
    PlaceHoldsRecord(slate, flags, i);
    PlaceHoldsRecord(slate, flags, j);
    assert flags[..|flags|] == flags;
    CountsGrow(flags, true, i, j);
    CountsGrow(flags, false, i, j);
    CountsGrow(flags, true, i, |flags|);
    CountsGrow(flags, true, j, |flags|);
  }

  lemma PlaceHoldsRecord(slate: Slate, flags: seq<bool>, i: nat)
    requires |flags| == |slate| && i < |slate|
    ensures |Partition(slate, flags)| == |slate|
    ensures Place(flags, i) < |slate| && Partition(slate, flags)[Place(flags, i)] == slate[i]
  {
    PickSize(slate, flags, true);
    PickSize(slate, flags, false);
    CountsAddUp(flags);
    PickKeepsOrder(slate, flags, flags[i], i);
  }

  lemma {:induction false} PartitionIsAPermutation(slate: Slate, flags: seq<bool>)
    requires |flags| == |slate|
    ensures multiset(Partition(slate, flags)) == multiset(slate)
  {
    if slate == [] {
    } else {
      var n := |slate| - 1;
      PartitionIsAPermutation(slate[..n], flags[..n]);
      assert slate == slate[..n] + [slate[n]];
    }
  }

  // ---------------------------------------------------------------------------------------------
  // The properties the layer is for
  // ---------------------------------------------------------------------------------------------

  /** At most one record is promoted per identity, however its id is spelled; and an identity with any
    * credited record has its first one promoted. */
  lemma OnePromotionPerIdentity(slate: Slate, verify: Verifier, budget: nat, i: nat, j: nat)
    requires i < j < |slate| && Promoted(slate, verify, budget, i)
    requires AsciiLower(slate[i].peerId) == AsciiLower(slate[j].peerId)
    ensures !Promoted(slate, verify, budget, j)
  {
    assert Credited(slate, verify, budget, i);
  }

  lemma {:induction false} AnyCreditPromotesTheFirst(slate: Slate, verify: Verifier, budget: nat, i: nat)
    requires i < |slate| && Credited(slate, verify, budget, i)
    ensures exists k :: 0 <= k <= i && Promoted(slate, verify, budget, k)
                     && AsciiLower(slate[k].peerId) == AsciiLower(slate[i].peerId)
  {
    if Promoted(slate, verify, budget, i) {
    } else {
      var j :| 0 <= j < i && Credited(slate, verify, budget, j)
        && AsciiLower(slate[j].peerId) == AsciiLower(slate[i].peerId);
      AnyCreditPromotesTheFirst(slate, verify, budget, j);
    }
  }

  function WithoutPointer(r: ProviderRecord): ProviderRecord { r.(coin := None) }

  lemma {:induction false} ClaimsOfAPrefix(slate: Slate, i: nat, j: nat)
    requires i <= j <= |slate|
    ensures Claims(slate[..i]) <= Claims(slate[..j])
  {
    if i == j {
    } else {
      assert slate[..j][..j - 1] == slate[..j - 1];
      ClaimsOfAPrefix(slate, i, j - 1);
    }
  }

  /** Taking one record's pointer away frees at most one read. */
  lemma {:induction false} ClaimsWithout(slate: Slate, i: nat, k: nat)
    requires i < |slate| && k <= |slate| && slate[i].coin.Some?
    ensures var bare := slate[i := WithoutPointer(slate[i])];
      Claims(bare[..k]) == Claims(slate[..k]) - (if i < k then 1 else 0)
  {
    var bare := slate[i := WithoutPointer(slate[i])];
    if k == 0 {
    } else {
      assert bare[..k][..k - 1] == bare[..k - 1] && slate[..k][..k - 1] == slate[..k - 1];
      ClaimsWithout(slate, i, k - 1);
      assert k - 1 < i ==> bare[k - 1] == slate[k - 1];
    }
  }

  /** With an unproven pointer on record `i`, every promotion that happens would also happen without it. */
  lemma PromotionsOnlyShrink(slate: Slate, verify: Verifier, budget: nat, i: nat, k: nat)
    requires i < |slate| && k < |slate| && slate[i].coin.Some?
    requires verify(i, slate[i].peerId, slate[i].coin.value) != Bonded
    ensures var bare := slate[i := WithoutPointer(slate[i])];
      && (Promoted(slate, verify, budget, k) ==> Promoted(bare, verify, budget, k))
      && (k <= i || Claims(slate) <= budget ==> Promoted(slate, verify, budget, k) == Promoted(bare, verify, budget, k))
  {
    var bare := slate[i := WithoutPointer(slate[i])];
    forall j | 0 <= j <= k
      ensures Credited(slate, verify, budget, j) ==> Credited(bare, verify, budget, j)
      ensures j <= i || Claims(slate) <= budget || Claims(slate[..k]) < budget ==>
        Credited(slate, verify, budget, j) == Credited(bare, verify, budget, j)
    {
      ClaimsWithout(slate, i, j);
      ClaimsOfAPrefix(slate, j, k);
      if j < |slate| {
        assert slate[..j + 1][..j] == slate[..j];
        ClaimsOfAPrefix(slate, j + 1, |slate|);
        assert slate[..|slate|] == slate;
      }
    }
  }

  lemma {:induction false} FewerFlags(a: seq<bool>, b: seq<bool>)
    requires |a| == |b| && forall k :: 0 <= k < |a| ==> a[k] ==> b[k]
    ensures CountFlags(a, true) <= CountFlags(b, true)
  {
    if a == [] {
    } else {
      FewerFlags(a[..|a| - 1], b[..|b| - 1]);
    }
  }

  /** A pointer is credit-only. Attaching to record `i` a pointer the chain does not prove never places it
    * later than the same slate without that pointer would, at any budget; and when the budget covers every
    * claim, it makes no difference to anybody's place. */
  lemma AnUnprovenPointerNeverDemotes(slate: Slate, verify: Verifier, budget: nat, i: nat)
    requires i < |slate| && slate[i].coin.Some?
    requires verify(i, slate[i].peerId, slate[i].coin.value) != Bonded
    ensures var bare := slate[i := WithoutPointer(slate[i])];
      var with, without := Flags(slate, verify, budget), Flags(bare, verify, budget);
      && Place(with, i) <= Place(without, i)
      && (Claims(slate) <= budget ==> with == without)
  {
    var bare := slate[i := WithoutPointer(slate[i])];
    var with, without := Flags(slate, verify, budget), Flags(bare, verify, budget);
    forall k | 0 <= k < |slate|
      ensures with[k] ==> without[k]
      ensures k <= i || Claims(slate) <= budget ==> with[k] == without[k]
    {
      PromotionsOnlyShrink(slate, verify, budget, i, k);
    }
    assert with[..i] == without[..i];
    assert !with[i] && !without[i];
    FewerFlags(with, without);
  }

  /** A chain that disproves a claim and a chain that says nothing about it lead to the same answer. */
  lemma DisproofReadsAsSilence(slate: Slate, verify: Verifier, silent: Verifier, budget: nat)
    requires forall k, p, c :: silent(k, p, c) == (if verify(k, p, c) == Unbonded then Unverified else verify(k, p, c))
    ensures Flags(slate, silent, budget) == Flags(slate, verify, budget)
    ensures Partition(slate, Flags(slate, silent, budget)) == Partition(slate, Flags(slate, verify, budget))
  {
    forall i | 0 <= i < |slate|
      ensures Credited(slate, silent, budget, i) == Credited(slate, verify, budget, i)
    {
      if slate[i].coin.Some? {
        assert silent(i, slate[i].peerId, slate[i].coin.value) == Bonded
          <==> verify(i, slate[i].peerId, slate[i].coin.value) == Bonded;
      }
    }
    assert Flags(slate, silent, budget) == Flags(slate, verify, budget);
  }

  /** A slate in which nobody points at a coin, or a chain that proves nothing, leaves the source's order. */
  lemma {:induction false} NoCreditMeansNoChange(slate: Slate, flags: seq<bool>)
    requires |flags| == |slate| && forall i :: 0 <= i < |flags| ==> !flags[i]
    ensures Partition(slate, flags) == slate
  {
    if slate == [] {
    } else {
      var n := |slate| - 1;
      NoCreditMeansNoChange(slate[..n], flags[..n]);
      assert slate == slate[..n] + [slate[n]];
    }
  }

  // ---------------------------------------------------------------------------------------------
  // The whole answer, on the slate and the chain alone
  // ---------------------------------------------------------------------------------------------

  /** The places before the i-th whose records point at a coin: the reads already spent when it is reached. */
  ghost function Pointing(slate: Slate, i: nat): set<nat>
    requires i <= |slate|
  {
    set j: nat | 0 <= j < i && slate[j].coin.Some?
  }

  /** The i-th record points at a coin, is reached while a read is left, and its read proves the bond. */
  ghost predicate Proven(slate: Slate, verify: Verifier, budget: nat, i: nat)
    requires i < |slate|
  {
    && slate[i].coin.Some? && |Pointing(slate, i)| < budget
    && verify(i, slate[i].peerId, slate[i].coin.value).Bonded?
  }

  /** And no earlier record of the same identity is proven. */
  ghost predicate FirstProven(slate: Slate, verify: Verifier, budget: nat, i: nat)
    requires i < |slate|
  {
    && Proven(slate, verify, budget, i)
    && forall j :: 0 <= j < i && Proven(slate, verify, budget, j) ==>
      AsciiLower(slate[j].peerId) != AsciiLower(slate[i].peerId)
  }

  lemma {:induction false} ClaimsArePointing(slate: Slate, i: nat)
    requires i <= |slate|
    ensures Claims(slate[..i]) == |Pointing(slate, i)|
  {
    if i == 0 {
      assert Pointing(slate, 0) == {};
    } else {
      var n := i - 1;
      ClaimsArePointing(slate, n);
      assert slate[..i][..n] == slate[..n];
      assert Pointing(slate, i) == if slate[n].coin.Some? then Pointing(slate, n) + {n} else Pointing(slate, n);
    }
  }

  lemma PromotedIsFirstProven(slate: Slate, verify: Verifier, budget: nat, i: nat)
    requires i < |slate|
    ensures Promoted(slate, verify, budget, i) <==> FirstProven(slate, verify, budget, i)
  {
    forall j | 0 <= j <= i ensures Credited(slate, verify, budget, j) <==> Proven(slate, verify, budget, j) {
      ClaimsArePointing(slate, j);
    }
  }

  lemma {:induction false} PickSelects(slate: Slate, flags: seq<bool>, want: bool) returns (picks: seq<nat>)
    requires |flags| == |slate|
    ensures Selects(slate, picks, Pick(slate, flags, want))
    ensures forall i :: 0 <= i < |slate| ==> (i in picks <==> flags[i] == want)
  {
    if slate == [] {
      picks := [];
    } else {
      var n := |slate| - 1;
      var before := PickSelects(slate[..n], flags[..n], want);
      SelectsOneMore(slate, before, Pick(slate[..n], flags[..n], want));
      picks := if flags[n] == want then before + [n] else before;
      assert forall i :: 0 <= i < n ==> flags[..n][i] == flags[i];
    }
  }

  /** The whole answer, exactly: first the records that are the first of their identity to be proven, then all the
    * others, each part in the order the source gave them; a record is read when it points at a coin and fewer than the
    * budget of those before it do. */
  lemma TheAnswerIs(slate: Slate, verify: Verifier, budget: nat) returns (front: seq<nat>, back: seq<nat>)
    ensures var answer := Partition(slate, Flags(slate, verify, budget));
      && |answer| == |front| + |back|
      && Selects(slate, front, answer[..|front|]) && Selects(slate, back, answer[|front|..])
    ensures forall i :: 0 <= i < |slate| ==>
      (i in front <==> FirstProven(slate, verify, budget, i)) && (i in back <==> i !in front)
    ensures Claims(slate) == |Pointing(slate, |slate|)|
  {
    var flags := Flags(slate, verify, budget);
    forall i | 0 <= i < |slate| ensures flags[i] <==> FirstProven(slate, verify, budget, i) {
      PromotedIsFirstProven(slate, verify, budget, i);
    }
    front := PickSelects(slate, flags, true);
    back := PickSelects(slate, flags, false);
    var first, rest := Pick(slate, flags, true), Pick(slate, flags, false);
    assert (first + rest)[..|front|] == first && (first + rest)[|front|..] == rest;
    ClaimsArePointing(slate, |slate|);
    assert slate[..|slate|] == slate;
  }
}
