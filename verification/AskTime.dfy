/** How far the time one node is given reaches among the peers it chose, and down the tree below them.
  *
  * The budget was sized so that every hop may wait for every peer it asks. Whether it does is a matter of which
  * hops are given the whole of it: this module says exactly which. */
module AskTime {
  import opened Common
  import opened HolderCache
  import opened HopBudget
  import opened ForwardedAsk

  // ---------------------------------------------------------------------------------------------
  // One round
  // ---------------------------------------------------------------------------------------------

  ghost predicate WithinNeed(exchange: string -> Exchange, need: nat) {
    forall p :: exchange(p).elapsed <= need
  }

  /** Every chosen peer still connected is asked, whatever the peers answer, so long as none of them takes
    * longer than `need`. */
  ghost predicate AsksThemAll(peers: seq<string>, start: nat, r: Round, need: nat) {
    forall exchange: string -> Exchange :: WithinNeed(exchange, need) ==>
      Peers(AskAll(peers, start, r.(exchange := exchange)).asks) == Connected(peers, r.pool)
  }

  lemma {:induction false} PeersCount(asks: seq<Ask>)
    ensures |Peers(asks)| == |asks|
  {
    if asks == [] {
    } else {
      PeersCount(asks[..|asks| - 1]);
    }
  }

  lemma {:induction false} TimeTakenAtMost(asks: seq<Ask>, exchange: string -> Exchange, need: nat)
    requires WithinNeed(exchange, need)
    ensures TimeTaken(asks, exchange) <= |asks| * need
  {
    if asks == [] {
    } else {
      var n := |asks| - 1;
      TimeTakenAtMost(asks[..n], exchange, need);
      assert n * need + need == |asks| * need;
    }
  }

  /** A round in which every exchange takes the same time: who is asked, when, and until when. */
  lemma {:induction false} SteadyRound(peers: seq<string>, start: nat, r: Round, need: nat)
    requires forall p :: p in peers ==> r.exchange(p).elapsed == need
    ensures var p := AskAll(peers, start, r);
      && p.now == start + |p.asks| * need
      && (forall i :: 0 <= i < |p.asks| ==> SteadyAsk(p.asks[i], start, r, i, need))
      && (p.outOfTime ==> p.now >= r.deadline)
  {
    if peers == [] {
    } else {
      var n := |peers| - 1;
      SteadyRound(peers[..n], start, r, need);
      var before := AskAll(peers[..n], start, r);
      assert peers[n] in peers;
      assert |before.asks| * need + need == (|before.asks| + 1) * need;
    }
  }

  /** The i-th ask of such a round: at its own instant, before the deadline, for all that is left. */
  predicate SteadyAsk(ask: Ask, start: nat, r: Round, i: nat, need: nat) {
    ask.at == start + i * need < r.deadline && ask.grant == r.deadline - ask.at
  }

  /** Exactly when a round's time is enough: the last connected peer must still be reached when all before it took
    * their whole need. */
  lemma AsksThemAllExactlyWhen(peers: seq<string>, start: nat, r: Round, need: nat)
    requires start <= r.deadline
    ensures var n := |Connected(peers, r.pool)|;
      AsksThemAll(peers, start, r, need) <==> n == 0 || (n - 1) * need < r.deadline - start
  {
    var n := |Connected(peers, r.pool)|;
    if n == 0 || (n - 1) * need < r.deadline - start {
      forall exchange: string -> Exchange | WithinNeed(exchange, need)
        ensures Peers(AskAll(peers, start, r.(exchange := exchange)).asks) == Connected(peers, r.pool)
      {
        EnoughTimeForAll(peers, start, r.(exchange := exchange), need);
      }
    } else {
      var steady: string -> Exchange := p => Exchange(TimedOut, need);
      assert WithinNeed(steady, need);
      var slow := r.(exchange := steady);
      var asks := AskAll(peers, start, slow).asks;
      SteadyRound(peers, start, slow, need);
      PeersCount(asks);
    }
  }

  lemma EnoughTimeForAll(peers: seq<string>, start: nat, r: Round, need: nat)
    requires WithinNeed(r.exchange, need)
    requires var n := |Connected(peers, r.pool)|; n == 0 || (n - 1) * need < r.deadline - start
    ensures Peers(AskAll(peers, start, r).asks) == Connected(peers, r.pool)
  {
    var p, n := AskAll(peers, start, r), |Connected(peers, r.pool)|;
    RoundIsFaithful(peers, start, r);
    if p.outOfTime {
      PeersCount(p.asks);
      TimeTakenAtMost(p.asks, r.exchange, need);
      SmallerFactor(|p.asks|, n - 1, need);
    }
  }

  // ---------------------------------------------------------------------------------------------
  // A node that derives its own budget
  // ---------------------------------------------------------------------------------------------

  /** A node nobody gave a time to derives it after its decision took off a hop: so for all the peers it asks
    * together it has what one of them needs for itself, and always less than it needs. */
  lemma AnOriginatorHoldsOnePeersNeed(budget: HopBudget, env: Env, asker: Option<string>, me: Option<string>, now: nat)
    requires env.Honours(budget, asker, me) && env.decision.Forward? && budget.time.None?
    ensures var left, fanOut := budget.Remaining(env.Bounds().hopCap).value, env.Bounds().fanOut;
      var deadline := RoundOf(budget, env, now).deadline;
      && left > 0 && deadline == now + Min(Work(left - 1, fanOut), MAX_FORWARDED_ASK_BUDGET)
      && now < deadline < now + Work(left, fanOut)
  {
    var left, fanOut := budget.Remaining(env.Bounds().hopCap).value, env.Bounds().fanOut;
    WorkOneMore(left - 1, fanOut);
    WorkGrows(0, left - 1, fanOut);
    TimesAtLeast(Breadth(fanOut), Work(left - 1, fanOut), Work(left - 1, fanOut));
  }

  /** So it is sure to ask every peer it chose exactly when it has at most one to ask; with more, peers that take
    * no longer than they need, nor than they were granted, leave the rest unasked. */
  lemma AnOriginatorAsksThemAllExactlyWhen(budget: HopBudget, env: Env, asker: Option<string>, me: Option<string>,
                                           now: nat)
    requires env.Honours(budget, asker, me) && env.decision.Forward? && budget.time.None?
    ensures var r, peers := RoundOf(budget, env, now), env.decision.peers;
      AsksThemAll(peers, now, r, Min(Work(env.decision.hopsRemaining, env.Bounds().fanOut), MAX_FORWARDED_ASK_BUDGET))
      <==> |Connected(peers, r.pool)| <= 1
  {
    var r, peers := RoundOf(budget, env, now), env.decision.peers;
    var need := Min(Work(env.decision.hopsRemaining, env.Bounds().fanOut), MAX_FORWARDED_ASK_BUDGET);
    var n := |Connected(peers, r.pool)|;
    AnOriginatorHoldsOnePeersNeed(budget, env, asker, me, now);
    AsksThemAllExactlyWhen(peers, now, r, need);
    if n >= 2 { SmallerFactor(1, n - 1, need); }
  }

  /** The shipped bounds - three peers, two hops - with three peers connected, each of which takes the twenty
    * seconds its own three leaves may need: only the first is asked. */
  lemma OnlyTheFirstOfThree(budget: HopBudget, env: Env, asker: Option<string>, me: Option<string>, now: nat)
    requires env.Honours(budget, asker, me) && env.decision.Forward? && budget.time.None? && budget.hops == Some(0)
    requires env.Bounds().fanOut == 3 && env.Bounds().hopCap == 2
    requires |env.decision.peers| == 3 && forall p :: p in env.decision.peers ==>
      p in env.pool && env.exchange(p).elapsed == Work(1, 3)
    ensures var p := AskAll(env.decision.peers, now, RoundOf(budget, env, now));
      Peers(p.asks) == [env.decision.peers[0]] && p.outOfTime && p.now == now + 20 * NANOS_PER_SEC
  {
    var peers, r := env.decision.peers, RoundOf(budget, env, now);
    AnOriginatorHoldsOnePeersNeed(budget, env, asker, me, now);
    assert Work(1, 3) == FORWARDED_ASK_LEAF_TIMEOUT + 3 * Work(0, 3);
    assert peers[..1][..0] == [] && peers[..2][..1] == peers[..1] && peers[..3] == peers
      && peers[..3][..2] == peers[..2];
    assert peers[0] in peers && peers[1] in peers && peers[2] in peers;
    var first := AskAll(peers[..1], now, r);
    assert AskAll(peers[..0], now, r) == Progress([], [], [], now, false);
    assert Work(1, 3) == 20 * NANOS_PER_SEC && env.decision.hopsRemaining == 1;
    assert r.deadline == now + 20 * NANOS_PER_SEC;
    assert r.pool == env.pool && peers[..1][0] == peers[0];
    assert first == AskNext(Progress([], [], [], now, false), peers[0], r);
    assert first.asks == [Ask(peers[0], r.depth, 20 * NANOS_PER_SEC, r.askId, now)];
    assert Peers(first.asks[..0]) == [];
  }

  // ---------------------------------------------------------------------------------------------
  // Down the tree
  // ---------------------------------------------------------------------------------------------

  /** The need in leaf timeouts: a whole number of them, so a whole number of milliseconds. */
  function WorkInLeaves(hops: nat, fanOut: nat): (n: nat)
    ensures Work(hops, fanOut) == FORWARDED_ASK_LEAF_TIMEOUT * n
  {
    if hops == 0 then 1 else
      var below := WorkInLeaves(hops - 1, fanOut);
      Distributes(FORWARDED_ASK_LEAF_TIMEOUT, Breadth(fanOut), below);
      1 + Breadth(fanOut) * below
  }

  lemma Distributes(unit: nat, b: nat, n: nat)
    ensures unit * (1 + b * n) == unit + b * (unit * n)
  {
    assert b * (unit * n) == unit * (b * n);
  }

  predicate Whole(time: nat) { time % NANOS_PER_MILLI == 0 }

  lemma WholeLeaves(n: nat)
    ensures Whole(FORWARDED_ASK_LEAF_TIMEOUT * n)
  {
    assert FORWARDED_ASK_LEAF_TIMEOUT * n == NANOS_PER_MILLI * (5000 * n);
  }

  lemma WorkIsWhole(hops: nat, fanOut: nat)
    ensures Whole(Work(hops, fanOut))
  {
    WholeLeaves(WorkInLeaves(hops, fanOut));
  }

  lemma {:induction false} WholeTimes(k: nat, time: nat)
    requires Whole(time)
    ensures Whole(k * time)
  {
    if k == 0 {
    } else {
      WholeTimes(k - 1, time);
      assert k * time == (k - 1) * time + time;
    }
  }

  /** A grant of whole milliseconds survives the wire; any other keeps what whole milliseconds it has. */
  lemma WireKeeps(grant: nat, floor: nat)
    requires Whole(floor) && floor <= grant && floor <= MAX_FORWARDED_ASK_BUDGET
    ensures floor <= WireGrant(grant) <= MAX_FORWARDED_ASK_BUDGET
    ensures Whole(grant) && grant <= MAX_FORWARDED_ASK_BUDGET ==> WireGrant(grant) == grant
  {
  }

  /** How much time a hop must have more than: the whole needs of all but one of its peers, and the same again at
    * that one. The searches on that last way down are nobody's to grant, for a deadline is fixed after one's own. */
  function Charged(hops: nat, fanOut: nat): nat {
    if hops == 0 then 0 else Needs(Breadth(fanOut) - 1, Work(hops - 1, fanOut)) + Charged(hops - 1, fanOut)
  }

  /** The needs of so many peers. */
  function Needs(peers: nat, need: nat): nat { peers * need }

  lemma {:induction false} ChargedIsNeedLessSearches(hops: nat, fanOut: nat)
    ensures Charged(hops, fanOut) + FORWARDED_ASK_LEAF_TIMEOUT * (hops + 1) == Work(hops, fanOut)
  {
    if hops == 0 {
    } else {
      ChargedIsNeedLessSearches(hops - 1, fanOut);
      WorkOneMore(hops - 1, fanOut);
      OneFewer(Breadth(fanOut), Work(hops - 1, fanOut));
    }
  }

  lemma OneFewer(b: nat, x: nat)
    requires b > 0
    ensures b * x == (b - 1) * x + x
  {
  }

  lemma WholeSum(x: nat, y: nat)
    requires Whole(x) && Whole(y)
    ensures Whole(x + y) && (y <= x ==> Whole(x - y))
  {
  }

  lemma {:induction false} ChargedIsWhole(hops: nat, fanOut: nat)
    ensures Whole(Charged(hops, fanOut))
  {
    if hops == 0 {
    } else {
      ChargedIsWhole(hops - 1, fanOut);
      WorkIsWhole(hops - 1, fanOut);
      WholeTimes(Breadth(fanOut) - 1, Work(hops - 1, fanOut));
      WholeSum(Needs(Breadth(fanOut) - 1, Work(hops - 1, fanOut)), Charged(hops - 1, fanOut));
    }
  }

  // ---------------------------------------------------------------------------------------------
  // Enough time
  // ---------------------------------------------------------------------------------------------

  /** Peers that take no more than their need are all asked, each with time to spare, if the last of them is. */
  lemma {:induction false} EachGetsTheRest(peers: seq<string>, start: nat, r: Round, need: nat, floor: nat)
    requires floor > 0 && (peers == [] || start + (|peers| - 1) * need + floor <= r.deadline)
    requires forall p :: p in peers ==> p in r.pool && r.exchange(p).elapsed <= need
    ensures var p := AskAll(peers, start, r); !p.outOfTime && |p.asks| == |peers|
    ensures forall i :: 0 <= i < |peers| ==>
      AskAll(peers, start, r).asks[i].peer == peers[i] && AskAll(peers, start, r).asks[i].grant >= floor
  {
    if peers == [] {
    } else {
      var n := |peers| - 1;
      if n > 0 { SmallerFactor(n - 1, n, need); }
      EachGetsTheRest(peers[..n], start, r, need, floor);
      assert peers[n] in peers;
      ClockRunsOn(peers[..n], start, r, need);
      OneMoreChild(AskAll(peers[..n], start, r), peers[n], r, floor);
    }
  }

  /** A hop with more time than is charged reaches every peer chosen anywhere below it. */
  lemma {:induction false} ReachedInTime(t: Hop, hops: nat, fanOut: nat)
    requires Executes(t, hops, fanOut)
    requires hops > 0 ==>
      t.start + Charged(hops, fanOut) + NANOS_PER_MILLI <= t.round.deadline <= t.start + MAX_FORWARDED_ASK_BUDGET
    ensures AllAsked(t, hops)
    decreases hops
  {
    if hops == 0 {
    } else {
      var asks, floor := AskAll(t.peers, t.start, t.round).asks, Charged(hops - 1, fanOut) + NANOS_PER_MILLI;
      PeersReachedInTime(t, hops, fanOut);
      forall i | 0 <= i < |t.below| ensures AllAsked(t.below[i], hops - 1) {
        assert Serves(t, hops, fanOut, i) && asks[i].peer == t.peers[i] && asks[i].grant >= floor;
        FloorIsRead(hops, fanOut, t.round.deadline - t.start, asks[i].grant);
        ReachedInTime(t.below[i], hops - 1, fanOut);
      }
    }
  }

  lemma OthersFit(peers: nat, breadth: nat, need: nat)
    requires 0 < peers <= breadth
    ensures (peers - 1) * need <= Needs(breadth - 1, need)
  {
    SmallerFactor(peers - 1, breadth - 1, need);
  }

  lemma PeersReachedInTime(t: Hop, hops: nat, fanOut: nat)
    requires hops > 0 && Executes(t, hops, fanOut)
    requires t.start + Charged(hops, fanOut) + NANOS_PER_MILLI <= t.round.deadline
    ensures var p := AskAll(t.peers, t.start, t.round);
      && !p.outOfTime && Peers(p.asks) == t.peers && |p.asks| == |t.peers|
      && forall i :: 0 <= i < |t.peers| ==>
        p.asks[i].peer == t.peers[i] && p.asks[i].grant >= Charged(hops - 1, fanOut) + NANOS_PER_MILLI
  {
    ChildrenKeepTheirNeed(t, hops, fanOut);
    if t.peers != [] { OthersFit(|t.peers|, Breadth(fanOut), Work(hops - 1, fanOut)); }
    EachGetsTheRest(t.peers, t.start, t.round, Work(hops - 1, fanOut), Charged(hops - 1, fanOut) + NANOS_PER_MILLI);
    PeersOfAll(AskAll(t.peers, t.start, t.round).asks, t.peers);
  }

  lemma FloorIsRead(hops: nat, fanOut: nat, total: nat, grant: nat)
    requires hops > 0 && Charged(hops, fanOut) + NANOS_PER_MILLI <= total <= MAX_FORWARDED_ASK_BUDGET
    requires Charged(hops - 1, fanOut) + NANOS_PER_MILLI <= grant
    ensures Charged(hops - 1, fanOut) + NANOS_PER_MILLI <= WireGrant(grant) <= MAX_FORWARDED_ASK_BUDGET
  {
    ChargedIsWhole(hops - 1, fanOut);
    WholeSum(Charged(hops - 1, fanOut), NANOS_PER_MILLI);
    WireKeeps(grant, Charged(hops - 1, fanOut) + NANOS_PER_MILLI);
  }

  lemma ChildrenKeepTheirNeed(t: Hop, hops: nat, fanOut: nat)
    requires hops > 0 && Executes(t, hops, fanOut)
    ensures forall p :: p in t.peers ==> p in t.round.pool && t.round.exchange(p).elapsed <= Work(hops - 1, fanOut)
  {
    forall p | p in t.peers ensures p in t.round.pool && t.round.exchange(p).elapsed <= Work(hops - 1, fanOut) {
      var i :| 0 <= i < |t.peers| && t.peers[i] == p;
      assert Serves(t, hops, fanOut, i);
      NoSubtreeOverruns(t.below[i], hops - 1, fanOut);
    }
  }

  // ---------------------------------------------------------------------------------------------
  // The slowest executions
  // ---------------------------------------------------------------------------------------------

  function Names(n: nat): (names: seq<string>)
    ensures |names| == n && Distinct(names)
  {
    seq(n, i requires 0 <= i < n => Name(i))
  }

  function Name(i: nat): (s: string)
    ensures |s| == i
  {
    seq(i, j requires 0 <= j < i => 'p')
  }

  /** So many peers, all connected: the first few take a need each, and the rest some other time. */
  function RoundOfNames(n: nat, grant: nat, few: nat, need: nat, other: nat): Round {
    Round((set p | p in Names(n)), grant, 0, 0, p => Exchange(TimedOut, if |p| < few then need else other))
  }

  /** An execution that takes as long as one can. */
  ghost predicate Slowest(t: Hop, hops: nat, fanOut: nat, grant: nat) {
    && Executes(t, hops, fanOut) && Took(t, hops) == Work(hops, fanOut) && t.round.deadline == t.start + grant
  }

  /** The rounds that matter ask their first few peers at even intervals. */
  lemma FirstFewAreAsked(n: nat, grant: nat, few: nat, need: nat, other: nat)
    requires few <= n && (few > 0 ==> (few - 1) * need < grant)
    ensures var p := AskAll(Names(n)[..few], 0, RoundOfNames(n, grant, few, need, other));
      && !p.outOfTime && |p.asks| == few && p.now == few * need
      && (forall i :: 0 <= i < few ==> p.asks[i].peer == Names(n)[i] && GrantAt(p.asks[i], grant, i, need))
  {
    var peers, r := Names(n)[..few], RoundOfNames(n, grant, few, need, other);
    EachGetsTheRest(peers, 0, r, need, 1);
    SteadyRound(peers, 0, r, need);
    forall i | 0 <= i < few ensures GrantAt(AskAll(peers, 0, r).asks[i], grant, i, need) {
      assert SteadyAsk(AskAll(peers, 0, r).asks[i], 0, r, i, need);
    }
  }

  predicate GrantAt(ask: Ask, grant: nat, i: nat, need: nat) { i * need < grant && ask.grant == grant - i * need }

  /** What is left of a grant of whole milliseconds after so many needs is read as it is. */
  lemma LeftIsRead(hops: nat, fanOut: nat, grant: nat, i: nat)
    requires Whole(grant) && grant <= MAX_FORWARDED_ASK_BUDGET && i * Work(hops, fanOut) <= grant
    ensures var left := grant - i * Work(hops, fanOut); Whole(left) && WireGrant(left) == left
  {
    WorkIsWhole(hops, fanOut);
    WholeTimes(i, Work(hops, fanOut));
    WholeSum(grant, i * Work(hops, fanOut));
    WireKeeps(grant - i * Work(hops, fanOut), 0);
  }

  lemma WhatIsLeftIsRead(hops: nat, fanOut: nat, grant: nat, i: nat)
    requires Whole(grant) && grant <= MAX_FORWARDED_ASK_BUDGET
    ensures var left := SaturatingSub(grant, i * Work(hops, fanOut));
      Whole(left) && left <= MAX_FORWARDED_ASK_BUDGET && WireGrant(left) == left
  {
    if i * Work(hops, fanOut) <= grant {
      LeftIsRead(hops, fanOut, grant, i);
    } else {
      WireKeeps(0, 0);
    }
  }

  /** What is left for one of the first few peers is enough for its slowest subtree. */
  lemma LeftIsEnough(hops: nat, fanOut: nat, grant: nat, few: nat, i: nat)
    requires Whole(grant) && grant <= MAX_FORWARDED_ASK_BUDGET && i < few
    requires Charged(hops, fanOut) + (few - 1) * Work(hops, fanOut) < grant
    ensures var left := SaturatingSub(grant, i * Work(hops, fanOut));
      Whole(left) && left <= MAX_FORWARDED_ASK_BUDGET && Charged(hops, fanOut) < left && WireGrant(left) == left
  {
    LeftExceeds(Charged(hops, fanOut), Work(hops, fanOut), grant, few, i);
    LeftIsRead(hops, fanOut, grant, i);
  }

  lemma LeftExceeds(charged: nat, need: nat, grant: nat, few: nat, i: nat)
    requires i < few && charged + (few - 1) * need < grant
    ensures i * need <= grant && grant - i * need > charged
  {
    SmallerFactor(i, few - 1, need);
  }

  lemma SlowestLeaf(fanOut: nat, grant: nat) returns (t: Hop)
    ensures Slowest(t, 0, fanOut, grant)
  {
    t := Hop(FORWARDED_ASK_LEAF_TIMEOUT, 0, [], Round({}, grant, 0, 0, p => Exchange(TimedOut, 0)), []);
  }

  /** Subtrees that take their whole need, for the first few peers of a hop. */
  lemma SlowestBelow(hops: nat, fanOut: nat, grant: nat, few: nat) returns (below: seq<Hop>)
    requires hops > 0 && Whole(grant) && grant <= MAX_FORWARDED_ASK_BUDGET
    requires few > 0 ==> Charged(hops - 1, fanOut) + (few - 1) * Work(hops - 1, fanOut) < grant
    ensures |below| == few
    ensures forall i :: 0 <= i < few ==>
      Slowest(below[i], hops - 1, fanOut, SaturatingSub(grant, i * Work(hops - 1, fanOut)))
    decreases hops, 0
  {
    var need := Work(hops - 1, fanOut);
    below := [];
    while |below| < few
      invariant |below| <= few
      invariant forall i :: 0 <= i < |below| ==> Slowest(below[i], hops - 1, fanOut, SaturatingSub(grant, i * need))
    {
      LeftIsEnough(hops - 1, fanOut, grant, few, |below|);
      var child := SlowestTree(hops - 1, fanOut, SaturatingSub(grant, |below| * need));
      below := below + [child];
    }
  }

  /** With more time than is charged there are executions that take the whole need. */
  lemma SlowestTree(hops: nat, fanOut: nat, grant: nat) returns (t: Hop)
    requires Whole(grant) && grant <= MAX_FORWARDED_ASK_BUDGET && (hops > 0 ==> Charged(hops, fanOut) < grant)
    ensures Slowest(t, hops, fanOut, grant)
    decreases hops, 1
  {
    if hops == 0 {
      t := SlowestLeaf(fanOut, grant);
    } else {
      var b, need := Breadth(fanOut), Work(hops - 1, fanOut);
      var below := SlowestBelow(hops, fanOut, grant, b);
      var r := RoundOfNames(b, grant, b, need, 0);
      FirstFewAreAsked(b, grant, b, need, 0);
      assert Names(b)[..b] == Names(b);
      t := Hop(FORWARDED_ASK_LEAF_TIMEOUT, 0, Names(b), r, below);
      forall i | 0 <= i < b ensures Serves(t, hops, fanOut, i) {
        SlowestServes(t, hops, fanOut, grant, b, 0, i);
      }
    }
  }

  /** The first few asks of a whole such round. */
  lemma FirstFewOfAll(n: nat, grant: nat, few: nat, need: nat, other: nat, i: nat)
    requires i < few <= n && (few - 1) * need < grant
    ensures var asks := AskAll(Names(n), 0, RoundOfNames(n, grant, few, need, other)).asks;
      i < |asks| && asks[i].peer == Names(n)[i] && GrantAt(asks[i], grant, i, need)
  {
    var r := RoundOfNames(n, grant, few, need, other);
    FirstFewAreAsked(n, grant, few, need, other);
    AsksOfAPrefix(Names(n), few, 0, r);
    assert AskAll(Names(n), 0, r).asks[i] == AskAll(Names(n)[..few], 0, r).asks[i];
  }

  /** The first few peers of such a round, above such subtrees, are served. */
  lemma SlowestServes(t: Hop, hops: nat, fanOut: nat, grant: nat, few: nat, other: nat, i: nat)
    requires hops > 0 && i < few <= |t.peers| == |t.below| && t.start == 0 && t.peers == Names(|t.peers|)
    requires t.round == RoundOfNames(|t.peers|, grant, few, Work(hops - 1, fanOut), other)
    requires Whole(grant) && grant <= MAX_FORWARDED_ASK_BUDGET
    requires (few - 1) * Work(hops - 1, fanOut) < grant
    requires Slowest(t.below[i], hops - 1, fanOut, SaturatingSub(grant, i * Work(hops - 1, fanOut)))
    ensures Serves(t, hops, fanOut, i)
  {
    FirstFewOfAll(|t.peers|, grant, few, Work(hops - 1, fanOut), other, i);
    LeftIsRead(hops - 1, fanOut, grant, i);
    assert t.peers[i] in t.peers;
  }

  lemma {:induction false} AsksOfAPrefix(peers: seq<string>, k: nat, start: nat, r: Round)
    requires k <= |peers|
    ensures AskAll(peers[..k], start, r).asks <= AskAll(peers, start, r).asks
  {
    if k == |peers| {
      assert peers[..k] == peers;
    } else {
      var n := |peers| - 1;
      assert peers[..n][..k] == peers[..k];
      AsksOfAPrefix(peers[..n], k, start, r);
    }
  }

  // ---------------------------------------------------------------------------------------------
  // Too little time
  // ---------------------------------------------------------------------------------------------

  /** A hop that answers at once, whatever it was granted. */
  function AtOnce(deadline: nat): Hop { Hop(0, 0, [], Round({}, deadline, 0, 0, p => Exchange(TimedOut, 0)), []) }

  lemma AtOnceExecutes(hops: nat, fanOut: nat, deadline: nat)
    ensures Executes(AtOnce(deadline), hops, fanOut) && Took(AtOnce(deadline), hops) == 0
  {
    assert AskAll([], 0, AtOnce(deadline).round).now == 0;
  }

  /** The first peer, of as many as can be slow and leave too little, that is left too little itself. */
  lemma FirstShort(hops: nat, fanOut: nat, grant: nat) returns (i: nat)
    requires hops > 0 && grant <= Charged(hops, fanOut)
    ensures i < Breadth(fanOut) && SaturatingSub(grant, i * Work(hops - 1, fanOut)) <= Charged(hops - 1, fanOut)
    ensures i > 0 ==> Charged(hops - 1, fanOut) + (i - 1) * Work(hops - 1, fanOut) < grant
  {
    var need, charged := Work(hops - 1, fanOut), Charged(hops - 1, fanOut);
    i := 0;
    while SaturatingSub(grant, i * need) > charged
      invariant i < Breadth(fanOut) && (i > 0 ==> charged + (i - 1) * need < grant)
      decreases Breadth(fanOut) - i
    {
      i := i + 1;
    }
  }

  /** Its round: those before it take their need, and it is left too little, or nothing. */
  lemma ShortRound(n: nat, grant: nat, need: nat, other: nat)
    requires n > 0 && (n > 1 ==> (n - 2) * need < grant)
    ensures var p, left := AskAll(Names(n), 0, RoundOfNames(n, grant, n - 1, need, other)),
      SaturatingSub(grant, (n - 1) * need);
      && (left == 0 ==> p.outOfTime)
      && (left > 0 ==> |p.asks| == n && p.asks[n - 1].peer == Names(n)[n - 1] && p.asks[n - 1].grant == left)
      && (left == 0 ==> |p.asks| == n - 1)
  {
    var few := n - 1;
    FirstFewAreAsked(n, grant, few, need, other);
    assert Names(n)[few] in Names(n);
  }

  lemma Unreached(hops: nat, fanOut: nat, grant: nat) returns (t: Hop)
    requires hops > 0 && Whole(grant) && grant <= MAX_FORWARDED_ASK_BUDGET && grant <= Charged(hops, fanOut)
    ensures Executes(t, hops, fanOut) && t.round.deadline == t.start + grant && !AllAsked(t, hops)
    decreases hops
  {
    var i := FirstShort(hops, fanOut, grant);
    var left := SaturatingSub(grant, i * Work(hops - 1, fanOut));
    var below := SlowestBelow(hops, fanOut, grant, i);
    var last := AtOnce(0);
    if left > 0 {
      WhatIsLeftIsRead(hops - 1, fanOut, grant, i);
      last := Unreached(hops - 1, fanOut, left);
    } else {
      AtOnceExecutes(hops - 1, fanOut, 0);
    }
    t := ShortHop(hops, fanOut, grant, below, last);
  }

  lemma ShortHop(hops: nat, fanOut: nat, grant: nat, below: seq<Hop>, last: Hop) returns (t: Hop)
    requires hops > 0 && Whole(grant) && grant <= MAX_FORWARDED_ASK_BUDGET && |below| < Breadth(fanOut)
    requires forall i :: 0 <= i < |below| ==>
      Slowest(below[i], hops - 1, fanOut, SaturatingSub(grant, i * Work(hops - 1, fanOut)))
    requires |below| > 0 ==> (|below| - 1) * Work(hops - 1, fanOut) < grant
    requires Executes(last, hops - 1, fanOut)
    requires var left := SaturatingSub(grant, |below| * Work(hops - 1, fanOut));
      left > 0 ==> last.round.deadline == last.start + left && !AllAsked(last, hops - 1)
    ensures Executes(t, hops, fanOut) && t.round.deadline == t.start + grant && !AllAsked(t, hops)
  {
    var few, n, need, other := |below|, |below| + 1, Work(hops - 1, fanOut), Took(last, hops - 1);
    t := Hop(0, 0, Names(n), RoundOfNames(n, grant, few, need, other), below + [last]);
    ShortRound(n, grant, need, other);
    forall i | 0 <= i < n ensures Serves(t, hops, fanOut, i) {
      if i < few {
        SlowestServes(t, hops, fanOut, grant, few, other, i);
      } else {
        ShortServes(t, hops, fanOut, grant, last);
      }
    }
    PeersCount(AskAll(t.peers, 0, t.round).asks);
    assert t.below[few] == last;
  }

  lemma ShortServes(t: Hop, hops: nat, fanOut: nat, grant: nat, last: Hop)
    requires hops > 0 && |t.below| == |t.peers| > 0 && t.start == 0 && t.peers == Names(|t.peers|)
    requires t.below[|t.peers| - 1] == last && (|t.peers| > 1 ==> (|t.peers| - 2) * Work(hops - 1, fanOut) < grant)
    requires t.round == RoundOfNames(|t.peers|, grant, |t.peers| - 1, Work(hops - 1, fanOut), Took(last, hops - 1))
    requires Whole(grant) && grant <= MAX_FORWARDED_ASK_BUDGET && Executes(last, hops - 1, fanOut)
    requires var left := SaturatingSub(grant, (|t.peers| - 1) * Work(hops - 1, fanOut));
      left > 0 ==> last.round.deadline == last.start + left
    ensures Serves(t, hops, fanOut, |t.peers| - 1)
  {
    var few, need := |t.peers| - 1, Work(hops - 1, fanOut);
    ShortRound(|t.peers|, grant, need, Took(last, hops - 1));
    WhatIsLeftIsRead(hops - 1, fanOut, grant, few);
    assert t.peers[few] in t.peers;
  }

  /** A hop given so much time is sure to reach every peer chosen anywhere in its tree exactly when it has more than is
    * charged: its need, less the searches on one way down. */
  lemma ATreeIsReachedExactlyWhen(hops: nat, fanOut: nat, grant: nat)
    requires hops > 0 && Whole(grant) && grant <= MAX_FORWARDED_ASK_BUDGET
    ensures (forall t :: Executes(t, hops, fanOut) && t.round.deadline == t.start + grant ==> AllAsked(t, hops))
      <==> grant + FORWARDED_ASK_LEAF_TIMEOUT * (hops + 1) > Work(hops, fanOut)
  {
    ChargedIsNeedLessSearches(hops, fanOut);
    ChargedIsWhole(hops, fanOut);
    if grant > Charged(hops, fanOut) {
      NextWhole(Charged(hops, fanOut), grant);
      forall t | Executes(t, hops, fanOut) && t.round.deadline == t.start + grant ensures AllAsked(t, hops) {
        ReachedInTime(t, hops, fanOut);
      }
    } else {
      var t := Unreached(hops, fanOut, grant);
    }
  }

  lemma NextWhole(x: nat, y: nat)
    requires Whole(x) && Whole(y) && x < y
    ensures x + NANOS_PER_MILLI <= y
  {
  }

  // ---------------------------------------------------------------------------------------------
  // The tree an originator starts
  // ---------------------------------------------------------------------------------------------

  /** What a hop derives for itself, its decision having taken a hop off. */
  function Derived(hops: nat, fanOut: nat): nat
    requires hops > 0
  {
    Min(Work(hops - 1, fanOut), MAX_FORWARDED_ASK_BUDGET)
  }

  /** An execution whose first hop derived its own budget, and has `n` connected peers to ask. */
  ghost predicate Originates(t: Hop, hops: nat, fanOut: nat, n: nat)
    requires hops > 0
  {
    && Executes(t, hops, fanOut) && t.round.deadline == t.start + Derived(hops, fanOut) && |t.peers| == n
  }

  lemma DerivedIsWhole(hops: nat, fanOut: nat)
    requires hops > 0
    ensures Whole(Derived(hops, fanOut)) && 0 < Derived(hops, fanOut) <= MAX_FORWARDED_ASK_BUDGET
    ensures WireGrant(Derived(hops, fanOut)) == Derived(hops, fanOut)
  {
    WorkIsWhole(hops - 1, fanOut);
    WorkGrows(0, hops - 1, fanOut);
    assert Whole(MAX_FORWARDED_ASK_BUDGET);
    WireKeeps(Derived(hops, fanOut), 0);
  }

  /** The first peer an originator asks holds all that was derived, and its whole subtree is reached, unless the
    * ceiling is no more than is charged there. */
  lemma TheFirstPeersSubtreeIsReached(t: Hop, hops: nat, fanOut: nat, n: nat)
    requires hops > 0 && n > 0 && Originates(t, hops, fanOut, n)
    ensures var asks := AskAll(t.peers[..1], t.start, t.round).asks;
      |asks| == 1 && asks[0].peer == t.peers[0] && asks[0].grant == Derived(hops, fanOut)
    ensures Charged(hops - 1, fanOut) < MAX_FORWARDED_ASK_BUDGET ==> AllAsked(t.below[0], hops - 1)
  {
    var peers := t.peers[..1];
    assert Serves(t, hops, fanOut, 0);
    DerivedIsWhole(hops, fanOut);
    assert peers[..0] == [] && AskAll(peers[..0], t.start, t.round) == Progress([], [], [], t.start, false);
    assert AskAll(peers, t.start, t.round) == AskNext(Progress([], [], [], t.start, false), t.peers[0], t.round);
    AsksOfAPrefix(t.peers, 1, t.start, t.round);
    if Charged(hops - 1, fanOut) < MAX_FORWARDED_ASK_BUDGET {
      ChargedIsLessThanDerived(hops, fanOut);
      ReachedInTime(t.below[0], hops - 1, fanOut);
    }
  }

  lemma ChargedIsLessThanDerived(hops: nat, fanOut: nat)
    requires hops > 0
    ensures Charged(hops - 1, fanOut) < MAX_FORWARDED_ASK_BUDGET
      <==> Charged(hops - 1, fanOut) + NANOS_PER_MILLI <= Derived(hops, fanOut)
  {
    ChargedIsNeedLessSearches(hops - 1, fanOut);
    ChargedIsWhole(hops - 1, fanOut);
    DerivedIsWhole(hops, fanOut);
    if Charged(hops - 1, fanOut) < Derived(hops, fanOut) {
      NextWhole(Charged(hops - 1, fanOut), Derived(hops, fanOut));
    }
  }

  /** After a first exchange and others that take no time, every ask holds what the first one left. */
  lemma {:induction false} TailGrants(peers: seq<string>, r: Round, first: nat)
    requires peers != [] && r.deadline > 0 && peers[0] in r.pool && r.exchange(peers[0]).elapsed == first
    requires forall i :: 1 <= i < |peers| ==> peers[i] in r.pool && r.exchange(peers[i]).elapsed == 0
    ensures var p := AskAll(peers, 0, r);
      && p.asks != [] && p.asks[0].peer == peers[0] && p.asks[0].grant == r.deadline && p.now == first
      && forall i :: 1 <= i < |p.asks| ==> p.asks[i].grant == SaturatingSub(r.deadline, first)
  {
    var n := |peers| - 1;
    if n == 0 {
      assert peers[..0] == [] && AskAll(peers[..0], 0, r) == Progress([], [], [], 0, false);
    } else {
      TailGrants(peers[..n], r, first);
    }
  }

  /** A round of any number of peers, the first of which leads to an execution cut short. */
  lemma FirstIsShort(hops: nat, fanOut: nat, n: nat) returns (t: Hop)
    requires hops > 0 && 0 < n <= Breadth(fanOut) && Charged(hops - 1, fanOut) >= MAX_FORWARDED_ASK_BUDGET
    ensures Originates(t, hops, fanOut, n) && !AllAsked(t, hops)
  {
    var grant := Derived(hops, fanOut);
    DerivedIsWhole(hops, fanOut);
    var child := Unreached(hops - 1, fanOut, grant);
    var first := Took(child, hops - 1);
    var rest := WireGrant(SaturatingSub(grant, first));
    var r := RoundOfNames(n, grant, 1, first, 0);
    t := Hop(0, 0, Names(n), r, seq(n, i => if i == 0 then child else AtOnce(rest)));
    TailGrants(Names(n), r, first);
    AtOnceExecutes(hops - 1, fanOut, rest);
    forall i | 0 <= i < n ensures Serves(t, hops, fanOut, i) {
      assert t.peers[i] in t.peers;
    }
    assert t.below[0] == child;
  }

  /** With two or more peers, and a first that may take all its need, no other peer is asked. */
  lemma SomeGoUnasked(hops: nat, fanOut: nat, n: nat) returns (t: Hop)
    requires hops > 0 && 2 <= n <= Breadth(fanOut) && Charged(hops - 1, fanOut) < MAX_FORWARDED_ASK_BUDGET
    ensures Originates(t, hops, fanOut, n) && |AskAll(t.peers, t.start, t.round).asks| == 1
  {
    var need, grant := Work(hops - 1, fanOut), Derived(hops, fanOut);
    DerivedIsWhole(hops, fanOut);
    ChargedIsLessThanDerived(hops, fanOut);
    var r := RoundOfNames(n, grant, n, need, 0);
    var child := SlowestTree(hops - 1, fanOut, grant);
    t := Hop(FORWARDED_ASK_LEAF_TIMEOUT, 0, Names(n), r, seq(n, i => child));
    OnlyOneFits(Names(n), r, need);
    forall i | 0 <= i < n ensures Serves(t, hops, fanOut, i) {
      assert t.below[i] == child && t.peers[i] in t.peers;
    }
  }

  lemma OnlyOneFits(peers: seq<string>, r: Round, need: nat)
    requires |peers| >= 2 && 0 < r.deadline <= need
    requires forall p :: p in peers ==> p in r.pool && r.exchange(p).elapsed == need
    ensures var p := AskAll(peers, 0, r); |p.asks| == 1 && p.outOfTime && p.asks[0].grant == r.deadline
  {
    assert peers[..1][..0] == [] && AskAll(peers[..0], 0, r) == Progress([], [], [], 0, false);
    assert peers[0] in peers;
    assert AskAll(peers[..1], 0, r) == AskNext(Progress([], [], [], 0, false), peers[0], r);
    assert peers[..2][..1] == peers[..1] && peers[1] in peers;
    OutOfTimeStays(peers, 2, 0, r);
  }

  /** The recursion an originator starts is sure to reach every peer chosen anywhere in the tree exactly when it has
    * nobody to ask, or one peer only and the ceiling is more than is charged there - which it is whenever that peer's
    * need fits under it. */
  lemma AnOriginatorsTreeIsReachedExactlyWhen(hops: nat, fanOut: nat, n: nat)
    requires hops > 0 && n <= Breadth(fanOut)
    ensures (forall t :: Originates(t, hops, fanOut, n) ==> AllAsked(t, hops))
      <==> n == 0 || (n == 1 && Work(hops - 1, fanOut) < MAX_FORWARDED_ASK_BUDGET + FORWARDED_ASK_LEAF_TIMEOUT * hops)
  {
    ChargedIsNeedLessSearches(hops - 1, fanOut);
    if n == 0 {
      forall t | Originates(t, hops, fanOut, n) ensures AllAsked(t, hops) {}
    } else if Charged(hops - 1, fanOut) >= MAX_FORWARDED_ASK_BUDGET {
      var t := FirstIsShort(hops, fanOut, n);
    } else if n == 1 {
      forall t | Originates(t, hops, fanOut, n) ensures AllAsked(t, hops) {
        TheFirstPeersSubtreeIsReached(t, hops, fanOut, n);
        assert t.peers[..1] == t.peers;
        PeersOfAll(AskAll(t.peers, t.start, t.round).asks, t.peers);
      }
    } else {
      var t := SomeGoUnasked(hops, fanOut, n);
      PeersCount(AskAll(t.peers, t.start, t.round).asks);
    }
  }
}
