/** The forwarded leg of one miss: whether this node asks its peers, whom, in what time, and what it may
  * conclude from what they say.
  *
  * Deciding whom to ask belongs to another crate and is held to a contract; a peer's answer, and how long
  * it takes, may be anything at all. */
module ForwardedAsk {
  import opened Common
  import opened ProviderRecords
  import opened HolderCache
  import opened HopBudget

  datatype Config = Config(enabled: bool, fanOut: nat, hopCap: nat, hearsayCap: nat) {
    predicate Valid() { fanOut <= U8_MAX && hopCap <= U8_MAX }
  }

  datatype ForwardRefusal = Disabled | UnreadableHopBudget | HopBudgetSpent | RelayBudgetSpent | NoEligiblePeer

  datatype ForwardDecision = Forward(peers: seq<string>, hopsRemaining: nat) | Refuse(reason: ForwardRefusal)

  predicate Distinct(peers: seq<string>) { forall i, j :: 0 <= i < j < |peers| ==> peers[i] != peers[j] }

  /** The contract of the deciding crate: it forwards only when enabled, within the relay budget and with
    * hops left to spend, to at most the fan-out of distinct dialable peers, never the asker nor this node;
    * and it blames the switch exactly when the switch is off. */
  predicate Decides(config: Config, asker: Option<string>, remaining: Option<nat>, me: Option<string>,
                    dialable: set<string>, relayBudget: bool, decision: ForwardDecision)
  {
    match decision
    case Forward(peers, hopsRemaining) =>
      && config.enabled && relayBudget && remaining.Some? && remaining.value > 0 && hopsRemaining == remaining.value - 1
      && |peers| <= config.fanOut && Distinct(peers)
      && (forall p :: p in peers ==> p in dialable && Some(p) != asker && Some(p) != me)
    case Refuse(reason) => reason.Disabled? <==> !config.enabled
  }

  datatype AskOutcome =
    | Answered(records: Slate)
    | AnsweredInconclusive(records: Slate)
    | Refused
    | TimedOut
    | Unreachable

  /** What one exchange with a peer gives, and how long it takes. */
  datatype Exchange = Exchange(outcome: AskOutcome, elapsed: nat)

  /** One question put to one peer, as it goes on the wire. */
  datatype Ask = Ask(peer: string, depth: nat, grant: nat, askId: AskId, at: nat)

  /** How many legs of one node may be in flight at once, on whoever's behalf. */
  const MAX_CONCURRENT_FORWARDED_ASKS: nat := 32

  /** The slots those legs hold. */
  class AskSlots {
    var held: nat

    ghost predicate Valid()
      reads this
    {
      held <= MAX_CONCURRENT_FORWARDED_ASKS
    }

    constructor ()
      ensures Valid() && held == 0
    {
      held := 0;
    }

    method TryAcquire() returns (got: bool)
      requires Valid()
      modifies this
      ensures Valid() && got == (old(held) < MAX_CONCURRENT_FORWARDED_ASKS)
      ensures held == old(held) + (if got then 1 else 0)
    {
      got := held < MAX_CONCURRENT_FORWARDED_ASKS;
      if got { held := held + 1; }
    }

    method Release()
      requires Valid() && held > 0
      modifies this
      ensures Valid() && held == old(held) - 1
    {
      held := held - 1;
    }
  }

  datatype ForwardedAnswers = ForwardedAnswers(records: Slate, conclusive: bool)

  /** Everything about this node and its peers that the leg depends on. `slotFree` says whether a node-wide
    * slot is left; `dialable` is what the decision chose from, and `pool` the keys of the connected pool
    * that the chosen peers are then looked up in. */
  datatype Env = Env(installed: bool, config: Option<Config>, dialable: set<string>, pool: set<string>,
                     relayBudget: bool, decision: ForwardDecision, slotFree: bool, exchange: string -> Exchange)
  {
    /** The leg gets as far as the seen-set. */
    predicate Reaches() { installed && decision.Forward? }

    /** The same node with so many of its slots held. */
    function WithSlots(held: nat): Env { this.(slotFree := held < MAX_CONCURRENT_FORWARDED_ASKS) }

    /** The bounds the asker was admitted under; the fallback is disabled. */
    function Bounds(): Config { if config.Some? then config.value else Config(false, 0, 0, 0) }

    predicate Honours(budget: HopBudget, asker: Option<string>, me: Option<string>) {
      && Bounds().Valid()
      && Decides(Bounds(), asker, budget.Remaining(Bounds().hopCap), me, dialable, relayBudget, decision)
    }
  }

  // ---------------------------------------------------------------------------------------------
  // The loop over the chosen peers
  // ---------------------------------------------------------------------------------------------

  datatype Round = Round(pool: set<string>, deadline: nat, depth: nat, askId: AskId, exchange: string -> Exchange)

  /** What an exchange says about a peer's conduct. */
  datatype ConductEvidence = HonestAnswer | NonPerformance

  function Evidence(outcome: AskOutcome): ConductEvidence {
    if outcome.Answered? || outcome.AnsweredInconclusive? then HonestAnswer else NonPerformance
  }

  /** What this node notes of one exchange it issued, for ranking its peers and for judging their conduct. */
  datatype Observation = Observation(peer: string, outcome: AskOutcome, elapsed: nat, evidence: ConductEvidence)

  datatype Progress = Progress(records: Slate, asks: seq<Ask>, observed: seq<Observation>, now: nat, outOfTime: bool)

  function Named(outcome: AskOutcome): Slate {
    match outcome
    case Answered(records) => records
    case AnsweredInconclusive(records) => records
    case _ => []
  }

  function AskNext(p: Progress, peer: string, r: Round): Progress {
    if p.outOfTime || peer !in r.pool then p
    else if SaturatingSub(r.deadline, p.now) == 0 then p.(outOfTime := true)
    else
      var e := r.exchange(peer);
      Progress(p.records + Named(e.outcome),
               p.asks + [Ask(peer, r.depth, SaturatingSub(r.deadline, p.now), r.askId, p.now)],
               p.observed + [Observation(peer, e.outcome, e.elapsed, Evidence(e.outcome))],
               p.now + e.elapsed, false)
  }

  function AskAll(peers: seq<string>, start: nat, r: Round): Progress {
    if peers == [] then Progress([], [], [], start, false)
    else AskNext(AskAll(peers[..|peers| - 1], start, r), peers[|peers| - 1], r)
  }

  method AskPeers(peers: seq<string>, start: nat, r: Round)
    returns (records: Slate, asks: seq<Ask>, observed: seq<Observation>, now: nat)
    ensures var p := AskAll(peers, start, r);
      records == p.records && asks == p.asks && observed == p.observed && now == p.now
  {
    records, asks, observed, now := [], [], [], start;
    for i := 0 to |peers|
      invariant AskAll(peers[..i], start, r) == Progress(records, asks, observed, now, false)
    {
      assert peers[..i + 1][..i] == peers[..i];
      var peer := peers[i];
      if peer !in r.pool { continue; }
      var remaining := SaturatingSub(r.deadline, now);
      if remaining == 0 {
        OutOfTimeStays(peers, i + 1, start, r);
        return;
      }
      var e := r.exchange(peer);
      asks := asks + [Ask(peer, r.depth, remaining, r.askId, now)];
      now := now + e.elapsed;
      observed := observed + [Observation(peer, e.outcome, e.elapsed, Evidence(e.outcome))];
      match e.outcome {
        case Answered(named) => records := records + named;
        case AnsweredInconclusive(named) => records := records + named;
        case _ =>
      }
    }
    assert peers[..|peers|] == peers;
  }

  lemma {:induction false} OutOfTimeStays(peers: seq<string>, i: nat, start: nat, r: Round)
    requires i <= |peers| && AskAll(peers[..i], start, r).outOfTime
    ensures AskAll(peers, start, r) == AskAll(peers[..i], start, r)
    decreases |peers| - i
  {
    if i < |peers| {
      assert peers[..i + 1][..i] == peers[..i];
      OutOfTimeStays(peers, i + 1, start, r);
    } else {
      assert peers[..i] == peers;
    }
  }

  // ---------------------------------------------------------------------------------------------
  // The leg
  // ---------------------------------------------------------------------------------------------

  function RecursionDisabled(): ForwardedAnswers { ForwardedAnswers([], true) }

  function TurnedAway(): ForwardedAnswers { ForwardedAnswers([], false) }

  datatype Leg = Leg(answers: ForwardedAnswers, asks: seq<Ask>, observed: seq<Observation>, end: nat)

  /** The questions one admitted forward puts to the network. */
  function RoundOf(budget: HopBudget, env: Env, now: nat): Round
    requires env.decision.Forward?
  {
    var hops := env.decision.hopsRemaining;
    Round(env.pool, now + budget.TimeBudget(hops, env.Bounds().fanOut), SaturatingSub(env.Bounds().hopCap, hops),
          budget.askId, env.exchange)
  }

  /** What the leg gives, when `claimed` is the seen-set's answer. */
  function Forwarded(budget: HopBudget, env: Env, claimed: bool, now: nat): Leg {
    if !env.installed || env.decision == Refuse(Disabled) then Leg(RecursionDisabled(), [], [], now)
    else if env.decision.Refuse? || !claimed || !env.slotFree then Leg(TurnedAway(), [], [], now)
    else
      var p := AskAll(env.decision.peers, now, RoundOf(budget, env, now));
      Leg(ForwardedAnswers(p.records, false), p.asks, p.observed, p.now)
  }

  /** The leg: it takes one of the node's slots after its claim, and gives it back however it ends. */
  method ForwardedHolders(content: ContentId, budget: HopBudget, env: Env, seen: AskSeenSet, slots: AskSlots, now: nat)
    returns (answers: ForwardedAnswers, end: nat, ghost leg: Leg, ghost claimed: bool)
    requires slots.Valid()
    modifies seen.seen, slots
    ensures slots.Valid() && slots.held == old(slots.held)
    ensures leg == Forwarded(budget, env.WithSlots(old(slots.held)), claimed, now)
    ensures answers == leg.answers && end == leg.end
    ensures !env.Reaches() ==> seen.seen.entries == old(seen.seen.entries)
    ensures env.Reaches() ==>
      ClaimStep(old(seen.seen.entries), Claim((budget.askId, content), now, claimed), seen.seen.entries,
                seen.seen.ttl, seen.seen.capacity)
  {
    claimed := false;
    ghost var met := env.WithSlots(slots.held);
    leg := Forwarded(budget, met, claimed, now);
    if !env.installed { return RecursionDisabled(), now, leg, claimed; }
    if env.decision.Refuse? {
      return if env.decision.reason.Disabled? then RecursionDisabled() else TurnedAway(), now, leg, claimed;
    }
    var granted := seen.ClaimAt(budget.askId, content, now);
    claimed := granted;
    leg := Forwarded(budget, met, claimed, now);
    if !granted { return TurnedAway(), now, leg, claimed; }
    var slot := slots.TryAcquire();
    if !slot { return TurnedAway(), now, leg, claimed; }
    var config := env.Bounds();
    var nextDepth := SaturatingSub(config.hopCap, env.decision.hopsRemaining);
    var total := budget.TimeBudget(env.decision.hopsRemaining, config.fanOut);
    var round := Round(env.pool, now + total, nextDepth, budget.askId, env.exchange);
    var records, asks, observed;
    records, asks, observed, end := AskPeers(env.decision.peers, now, round);
    answers := ForwardedAnswers(records, false);
    slots.Release();
  }

  // ---------------------------------------------------------------------------------------------
  // What the leg may conclude
  // ---------------------------------------------------------------------------------------------

  /** The leg is conclusive exactly when asking was never part of this node's answer, and then it asked
    * nobody and heard nothing; so no answer, silence, refusal or spent budget can make it so. */
  lemma ConclusiveExactlyWhenNeverOffered(budget: HopBudget, env: Env, claimed: bool, now: nat)
    ensures var leg := Forwarded(budget, env, claimed, now);
      && (leg.answers.conclusive <==> !env.installed || env.decision == Refuse(Disabled))
      && (leg.answers.conclusive ==> leg.asks == [] && leg.answers.records == [])
  {
  }

  // ---------------------------------------------------------------------------------------------
  // What the leg may spend
  // ---------------------------------------------------------------------------------------------

  /** Each question of a round, in order: the peers asked are picked in order from the chosen ones, each is
    * granted exactly what is left until the one deadline, and the clock only moves by what they take. */
  ghost predicate WellAsked(asks: seq<Ask>, peers: seq<string>, start: nat, r: Round) {
    && |asks| <= |peers|
    && (forall i :: 0 <= i < |asks| ==> asks[i].peer in peers && asks[i].peer in r.pool)
    && (forall i, j :: 0 <= i < j < |asks| ==> asks[i].peer != asks[j].peer)
    && (forall i :: 0 <= i < |asks| ==>
          && asks[i].depth == r.depth && asks[i].askId == r.askId && start <= asks[i].at < r.deadline
          && asks[i].grant == r.deadline - asks[i].at)
  }

  lemma AskKeepsWellAsked(p: Progress, peers: seq<string>, peer: string, start: nat, r: Round)
    requires WellAsked(p.asks, peers, start, r) && p.now >= start && peer !in peers
    ensures WellAsked(AskNext(p, peer, r).asks, peers + [peer], start, r) && AskNext(p, peer, r).now >= start
  {
  }

  lemma {:induction false} RoundIsWellAsked(peers: seq<string>, start: nat, r: Round)
    requires Distinct(peers)
    ensures var p := AskAll(peers, start, r); WellAsked(p.asks, peers, start, r) && p.now >= start
  {
    if peers == [] {
    } else {
      var n := |peers| - 1;
      RoundIsWellAsked(peers[..n], start, r);
      assert peers == peers[..n] + [peers[n]];
      assert peers[n] !in peers[..n];
      AskKeepsWellAsked(AskAll(peers[..n], start, r), peers[..n], peers[n], start, r);
    }
  }

  /** Everything the asked peers named, in the order they were asked. */
  function NamedBy(asks: seq<Ask>, exchange: string -> Exchange): Slate {
    if asks == [] then [] else NamedBy(asks[..|asks| - 1], exchange) + Named(exchange(asks[|asks| - 1].peer).outcome)
  }

  function TimeTaken(asks: seq<Ask>, exchange: string -> Exchange): nat {
    if asks == [] then 0 else TimeTaken(asks[..|asks| - 1], exchange) + exchange(asks[|asks| - 1].peer).elapsed
  }

  function ObservedOf(asks: seq<Ask>, exchange: string -> Exchange): seq<Observation> {
    if asks == [] then [] else
      var peer := asks[|asks| - 1].peer;
      ObservedOf(asks[..|asks| - 1], exchange)
        + [Observation(peer, exchange(peer).outcome, exchange(peer).elapsed, Evidence(exchange(peer).outcome))]
  }

  /** The chosen peers that are still connected, in their order. */
  function Connected(peers: seq<string>, pool: set<string>): seq<string> {
    if peers == [] then [] else
      Connected(peers[..|peers| - 1], pool) + (if peers[|peers| - 1] in pool then [peers[|peers| - 1]] else [])
  }

  function Peers(asks: seq<Ask>): seq<string> {
    if asks == [] then [] else Peers(asks[..|asks| - 1]) + [asks[|asks| - 1].peer]
  }

  /** Nothing is skipped and nothing made up: the connected peers are asked in the order they were chosen,
    * all of them unless the deadline was reached; the clock moved by what they took; and the records are
    * what they named, no more, no less, in that order; and each exchange is observed once, as it went. */
  lemma {:induction false} RoundIsFaithful(peers: seq<string>, start: nat, r: Round)
    ensures var p := AskAll(peers, start, r);
      && Peers(p.asks) <= Connected(peers, r.pool)
      && (!p.outOfTime ==> Peers(p.asks) == Connected(peers, r.pool))
      && (p.outOfTime ==> p.now >= r.deadline && Peers(p.asks) < Connected(peers, r.pool))
      && p.records == NamedBy(p.asks, r.exchange) && p.observed == ObservedOf(p.asks, r.exchange)
      && p.now == start + TimeTaken(p.asks, r.exchange)
  {
    if peers == [] {
    } else {
      var n := |peers| - 1;
      RoundIsFaithful(peers[..n], start, r);
      var before, p := AskAll(peers[..n], start, r), AskAll(peers, start, r);
      if p.asks != before.asks { assert p.asks[..|before.asks|] == before.asks; }
    }
  }

  // ---------------------------------------------------------------------------------------------
  // What the leg did, in terms of the exchanges alone
  // ---------------------------------------------------------------------------------------------

  /** This peer answered, conclusively or not, and named that record. */
  predicate Says(outcome: AskOutcome, record: ProviderRecord) {
    (outcome.Answered? || outcome.AnsweredInconclusive?) && record in outcome.records
  }

  /** What one exchange contributes: the list the peer named if it answered, and nothing if it did not. */
  predicate Contributes(outcome: AskOutcome, records: Slate) {
    match outcome
    case Answered(named) => records == named
    case AnsweredInconclusive(named) => records == named
    case Refused => records == []
    case TimedOut => records == []
    case Unreachable => records == []
  }

  /** The stretch of the records between the k-th cut and the next is the k-th ask's contribution. */
  ghost predicate StretchAt(records: Slate, asks: seq<Ask>, exchange: string -> Exchange, cuts: seq<nat>, k: nat)
    requires k < |asks| && |cuts| == |asks| + 1
  {
    && cuts[k] <= cuts[k + 1] <= |records|
    && Contributes(exchange(asks[k].peer).outcome, records[cuts[k]..cuts[k + 1]])
  }

  /** The records are the contributions of the asks, one after another. */
  ghost predicate WhatTheySaid(records: Slate, asks: seq<Ask>, exchange: string -> Exchange, cuts: seq<nat>) {
    && |cuts| == |asks| + 1 && cuts[0] == 0 && cuts[|asks|] == |records|
    && forall k :: 0 <= k < |asks| ==> StretchAt(records, asks, exchange, cuts, k)
  }

  lemma {:induction false} NamedByIsWhatTheySaid(asks: seq<Ask>, exchange: string -> Exchange) returns (cuts: seq<nat>)
    ensures WhatTheySaid(NamedBy(asks, exchange), asks, exchange, cuts)
  {
    if asks == [] {
      cuts := [0];
    } else {
      var n := |asks| - 1;
      var before := NamedByIsWhatTheySaid(asks[..n], exchange);
      cuts := before + [|NamedBy(asks, exchange)|];
      OneMoreSaid(NamedBy(asks[..n], exchange), asks, exchange, before, Named(exchange(asks[n].peer).outcome));
    }
  }

  lemma OneMoreSaid(records: Slate, asks: seq<Ask>, exchange: string -> Exchange, cuts: seq<nat>, more: Slate)
    requires asks != [] && WhatTheySaid(records, asks[..|asks| - 1], exchange, cuts)
    requires Contributes(exchange(asks[|asks| - 1].peer).outcome, more)
    ensures WhatTheySaid(records + more, asks, exchange, cuts + [|records| + |more|])
  {
    var n := |asks| - 1;
    var all, next := records + more, cuts + [|records| + |more|];
    assert all[|records|..] == more;
    forall k | 0 <= k < n ensures StretchAt(all, asks, exchange, next, k) {
      assert StretchAt(records, asks[..n], exchange, cuts, k);
      assert all[cuts[k]..cuts[k + 1]] == records[cuts[k]..cuts[k + 1]];
    }
  }

  /** What a leg hears, exactly: the lists named by the peers that answered, conclusively or not, in the order they
    * were asked and with nothing added, dropped or repeated; a peer that refused, timed out or could not be reached
    * contributes nothing. So a record is heard exactly when one of the peers asked answered and named it. */
  lemma ALegHearsWhatItsPeersSay(budget: HopBudget, env: Env, claimed: bool, now: nat, record: ProviderRecord)
    returns (cuts: seq<nat>)
    ensures var leg := Forwarded(budget, env, claimed, now);
      && WhatTheySaid(leg.answers.records, leg.asks, env.exchange, cuts)
      && (record in leg.answers.records
          <==> exists k :: 0 <= k < |leg.asks| && Says(env.exchange(leg.asks[k].peer).outcome, record))
  {
    var leg := Forwarded(budget, env, claimed, now);
    assert leg.answers.records == NamedBy(leg.asks, env.exchange) by {
      if env.installed && env.decision.Forward? && claimed && env.slotFree {
        RoundIsFaithful(env.decision.peers, now, RoundOf(budget, env, now));
      }
    }
    NamedBySays(leg.asks, env.exchange, record);
    cuts := NamedByIsWhatTheySaid(leg.asks, env.exchange);
  }

  lemma {:induction false} NamedBySays(asks: seq<Ask>, exchange: string -> Exchange, record: ProviderRecord)
    ensures record in NamedBy(asks, exchange)
      <==> exists k :: 0 <= k < |asks| && Says(exchange(asks[k].peer).outcome, record)
  {
    if asks == [] {
    } else {
      var n := |asks| - 1;
      NamedBySays(asks[..n], exchange, record);
      assert record in Named(exchange(asks[n].peer).outcome) <==> Says(exchange(asks[n].peer).outcome, record);
      if k :| 0 <= k < n && Says(exchange(asks[..n][k].peer).outcome, record) { assert asks[..n][k] == asks[k]; }
      if k :| 0 <= k < n && Says(exchange(asks[k].peer).outcome, record) { assert asks[..n][k] == asks[k]; }
    }
  }

  /** The k-th ask: the next one is put when it returned, it is granted what is left until the one deadline, one hop
    * deeper and under the same identity, and it is observed as it went, an answer of either kind being an honest one
    * and nothing else. */
  ghost predicate TimedAt(asks: seq<Ask>, observed: seq<Observation>, end: nat, r: Round, k: nat)
    requires k < |asks| == |observed|
  {
    var e := r.exchange(asks[k].peer);
    && asks[k].at + e.elapsed == (if k + 1 < |asks| then asks[k + 1].at else end)
    && asks[k].at < r.deadline && asks[k].grant == r.deadline - asks[k].at
    && asks[k].depth == r.depth && asks[k].askId == r.askId
    && observed[k].peer == asks[k].peer && observed[k].outcome == e.outcome && observed[k].elapsed == e.elapsed
    && (observed[k].evidence.HonestAnswer? <==> e.outcome.Answered? || e.outcome.AnsweredInconclusive?)
  }

  /** The first ask is put at the start, and every ask is on the clock. */
  ghost predicate OnTheClock(asks: seq<Ask>, observed: seq<Observation>, start: nat, end: nat, r: Round) {
    && |observed| == |asks| && (if asks == [] then end == start else asks[0].at == start)
    && forall k :: 0 <= k < |asks| ==> TimedAt(asks, observed, end, r, k)
  }

  /** The peers asked are the connected ones among the first `reached` chosen, in their order. */
  ghost predicate InTurn(asks: seq<Ask>, peers: seq<string>, pool: set<string>, picks: seq<nat>, reached: nat) {
    && reached <= |peers| && |picks| == |asks|
    && (forall j, k :: 0 <= j < k < |picks| ==> picks[j] < picks[k])
    && (forall k :: 0 <= k < |picks| ==> picks[k] < reached && asks[k].peer == peers[picks[k]])
    && (forall i :: 0 <= i < reached ==> (i in picks <==> peers[i] in pool))
  }

  /** Whom a leg asks, exactly, once it has its claim and its slot: the connected ones of the chosen peers, in the
    * order they were chosen, from the first on, all of them unless the deadline came first, and each on the clock. */
  lemma ALegAsksInTurn(budget: HopBudget, env: Env, now: nat) returns (picks: seq<nat>, reached: nat)
    requires env.Reaches() && env.slotFree
    ensures var leg := Forwarded(budget, env, true, now);
      var peers, hops := env.decision.peers, env.decision.hopsRemaining;
      var deadline := now + budget.TimeBudget(hops, env.Bounds().fanOut);
      && InTurn(leg.asks, peers, env.pool, picks, reached)
      && (reached < |peers| ==> peers[reached] in env.pool && leg.end >= deadline)
      && OnTheClock(leg.asks, leg.observed, now, leg.end,
                    Round(env.pool, deadline, SaturatingSub(env.Bounds().hopCap, hops), budget.askId, env.exchange))
  {
    picks, reached := RoundAsksInTurn(env.decision.peers, now, RoundOf(budget, env, now));
  }

  lemma {:induction false} RoundAsksInTurn(peers: seq<string>, start: nat, r: Round)
    returns (picks: seq<nat>, reached: nat)
    ensures var p := AskAll(peers, start, r);
      && InTurn(p.asks, peers, r.pool, picks, reached) && OnTheClock(p.asks, p.observed, start, p.now, r)
      && (p.outOfTime <==> reached < |peers|)
      && (reached < |peers| ==> peers[reached] in r.pool && p.now >= r.deadline)
  {
    if peers == [] {
      picks, reached := [], 0;
    } else {
      var n := |peers| - 1;
      picks, reached := RoundAsksInTurn(peers[..n], start, r);
      var before := AskAll(peers[..n], start, r);
      AskOnTheClock(before, peers[n], start, r);
      InTurnOneMore(before.asks, peers, r.pool, picks, reached);
      if !before.outOfTime && (peers[n] !in r.pool || r.deadline > before.now) {
        reached := n + 1;
        if peers[n] in r.pool { picks := picks + [n]; }
      }
    }
  }

  /** One chosen peer more: never come to, passed over as not connected, or asked. */
  lemma InTurnOneMore(asks: seq<Ask>, peers: seq<string>, pool: set<string>, picks: seq<nat>, reached: nat)
    requires peers != [] && InTurn(asks, peers[..|peers| - 1], pool, picks, reached)
    ensures InTurn(asks, peers, pool, picks, reached)
    ensures var n := |peers| - 1; reached == n ==>
      if peers[n] !in pool then InTurn(asks, peers, pool, picks, n + 1)
      else forall ask: Ask :: ask.peer == peers[n] ==> InTurn(asks + [ask], peers, pool, picks + [n], n + 1)
  {
    assert forall i :: 0 <= i < |peers| - 1 ==> peers[..|peers| - 1][i] == peers[i];
  }

  lemma AskOnTheClock(p: Progress, peer: string, start: nat, r: Round)
    requires OnTheClock(p.asks, p.observed, start, p.now, r)
    ensures var next := AskNext(p, peer, r); OnTheClock(next.asks, next.observed, start, next.now, r)
  {
    var next := AskNext(p, peer, r);
    var n := |p.asks|;
    if next.asks != p.asks {
      forall k | 0 <= k < n ensures TimedAt(next.asks, next.observed, next.now, r, k) {
        assert TimedAt(p.asks, p.observed, p.now, r, k);
      }
      assert TimedAt(next.asks, next.observed, next.now, r, n);
    }
  }

  /** Every exchange of these asks returned within the time it was granted. */
  ghost predicate WithinGrants(asks: seq<Ask>, exchange: string -> Exchange) {
    forall i :: 0 <= i < |asks| ==> exchange(asks[i].peer).elapsed <= asks[i].grant
  }

  lemma {:induction false} EndsByDeadline(peers: seq<string>, start: nat, r: Round)
    requires start <= r.deadline && WithinGrants(AskAll(peers, start, r).asks, r.exchange)
    ensures AskAll(peers, start, r).now <= r.deadline
  {
    if peers == [] {
    } else {
      var n := |peers| - 1;
      var before, p := AskAll(peers[..n], start, r), AskAll(peers, start, r);
      assert forall i :: 0 <= i < |before.asks| ==> p.asks[i] == before.asks[i];
      EndsByDeadline(peers[..n], start, r);
      if p != before && !p.outOfTime {
        assert p.asks[|before.asks|].peer == peers[n];
        assert r.exchange(p.asks[|before.asks|].peer).elapsed <= p.asks[|before.asks|].grant;
      }
    }
  }

  /** The bounds of one leg, whatever the peers do: at most the fan-out of distinct questions, never to the
    * asker nor to itself, each one hop deeper and under the same identity, and none granted more time than
    * this node was, which is never above the ceiling. */
  lemma LegIsBounded(budget: HopBudget, env: Env, asker: Option<string>, me: Option<string>, claimed: bool, now: nat)
    requires budget.Valid() && env.Honours(budget, asker, me)
    ensures var asks := Forwarded(budget, env, claimed, now).asks;
      && |asks| <= env.Bounds().fanOut
      && (forall i, j :: 0 <= i < j < |asks| ==> asks[i].peer != asks[j].peer)
      && (asks != [] ==> claimed && env.relayBudget && env.slotFree && budget.Used() < env.Bounds().hopCap)
      && (forall i :: 0 <= i < |asks| ==>
            && Some(asks[i].peer) != asker && Some(asks[i].peer) != me
            && asks[i].depth == budget.Used() + 1 && asks[i].askId == budget.askId
            && 0 < asks[i].grant <= MAX_FORWARDED_ASK_BUDGET
               && (budget.time.Some? ==> asks[i].grant <= budget.time.value))
  {
    if env.installed && env.decision.Forward? && claimed && env.slotFree {
      var r := RoundOf(budget, env, now);
      RoundIsWellAsked(env.decision.peers, now, r);
      TimeIsBounded(budget, env.decision.hopsRemaining, env.Bounds().fanOut);
      OneHopFurther(budget, env.Bounds().hopCap, 0, 0);
    }
  }

  /** If every peer returns within its grant, the whole leg ends within the time it was given. */
  lemma LegEndsInTime(budget: HopBudget, env: Env, claimed: bool, now: nat)
    requires budget.Valid() && WithinGrants(Forwarded(budget, env, claimed, now).asks, env.exchange)
    ensures Forwarded(budget, env, claimed, now).end <= now + MAX_FORWARDED_ASK_BUDGET
    ensures budget.time.Some? ==> Forwarded(budget, env, claimed, now).end <= now + budget.time.value
  {
    if env.installed && env.decision.Forward? && claimed && env.slotFree {
      EndsByDeadline(env.decision.peers, now, RoundOf(budget, env, now));
      TimeIsBounded(budget, env.decision.hopsRemaining, env.Bounds().fanOut);
    }
  }

  /** What is left after `k` siblings that each took at most `need` still covers the next. */
  lemma Leftover(total: nat, breadth: nat, need: nat, k: nat, spent: nat)
    requires total >= FORWARDED_ASK_LEAF_TIMEOUT + breadth * need && k < breadth && spent <= k * need
    ensures total - spent >= FORWARDED_ASK_LEAF_TIMEOUT + need
  {
    assert breadth * need == k * need + (breadth - k) * need;
    TimesAtLeast(breadth - k, need, need);
  }

  lemma {:induction false} ClockRunsOn(peers: seq<string>, start: nat, r: Round, need: nat)
    requires forall p :: p in peers ==> r.exchange(p).elapsed <= need
    ensures start <= AskAll(peers, start, r).now <= start + |peers| * need
  {
    if peers == [] {
    } else {
      var n := |peers| - 1;
      ClockRunsOn(peers[..n], start, r, need);
      assert peers[n] in peers;
      assert n * need + need == (n + 1) * need;
    }
  }

  lemma OneMoreChild(before: Progress, peer: string, r: Round, floor: nat)
    requires !before.outOfTime && peer in r.pool && SaturatingSub(r.deadline, before.now) >= floor > 0
    ensures var p := AskNext(before, peer, r);
      && !p.outOfTime && |p.asks| == |before.asks| + 1 && p.asks[..|before.asks|] == before.asks
      && p.asks[|before.asks|].peer == peer && p.asks[|before.asks|].grant >= floor
  {
  }

  /** The arithmetic the budget exists for: a hop holding its whole need asks every peer it chose, and grants
    * each of them that peer's own whole need, provided those before it took no more than theirs. Only a hop given
    * that much on the wire holds it: one that derives its own time never does, and what becomes of its peers is
    * the subject of `AskTime`. */
  lemma {:induction false} EveryChildCanFinish(peers: seq<string>, start: nat, r: Round, hops: nat, fanOut: nat)
    requires hops > 0 && |peers| <= Breadth(fanOut) && r.deadline >= start + Work(hops, fanOut)
    requires forall p :: p in peers ==> p in r.pool && r.exchange(p).elapsed <= Work(hops - 1, fanOut)
    ensures var p := AskAll(peers, start, r); !p.outOfTime && |p.asks| == |peers|
    ensures forall i :: 0 <= i < |peers| ==> var ask := AskAll(peers, start, r).asks[i];
      ask.peer == peers[i] && ask.grant >= FORWARDED_ASK_LEAF_TIMEOUT + Work(hops - 1, fanOut)
  {
    if peers == [] {
    } else {
      var n := |peers| - 1;
      var need := Work(hops - 1, fanOut);
      EveryChildCanFinish(peers[..n], start, r, hops, fanOut);
      assert peers[n] in peers;
      var before := AskAll(peers[..n], start, r);
      ClockRunsOn(peers[..n], start, r, need);
      Leftover(r.deadline - start, Breadth(fanOut), need, n, before.now - start);
      OneMoreChild(before, peers[n], r, FORWARDED_ASK_LEAF_TIMEOUT + need);
    }
  }

  /** A grant of zero is an instruction, not an absence of one: the leg asks nobody and, having been meant to,
    * concludes nothing. */
  lemma AnExhaustedBudgetAsksNobody(budget: HopBudget, env: Env, claimed: bool, now: nat)
    requires budget.time == Some(0) && env.installed && env.decision.Forward?
    ensures Forwarded(budget, env, claimed, now).asks == [] && !Forwarded(budget, env, claimed, now).answers.conclusive
  {
    if claimed && env.slotFree {
      NothingBeforeADeadlinePast(env.decision.peers, now, RoundOf(budget, env, now));
    }
  }

  lemma {:induction false} NothingBeforeADeadlinePast(peers: seq<string>, start: nat, r: Round)
    requires start >= r.deadline
    ensures AskAll(peers, start, r).asks == [] && AskAll(peers, start, r).now == start
  {
    if peers == [] {
    } else {
      NothingBeforeADeadlinePast(peers[..|peers| - 1], start, r);
    }
  }

  // ---------------------------------------------------------------------------------------------
  // The whole tree of one question
  // ---------------------------------------------------------------------------------------------

  /** How one hop went: the time it spent on its own search, when its leg began, the peers it chose, the round it
    * put to them, and how each of them fared in turn. */
  datatype Hop = Hop(own: nat, start: nat, peers: seq<string>, round: Round, below: seq<Hop>)

  /** The time a hop with so many hops left took in all. */
  function Took(t: Hop, hops: nat): nat {
    if hops == 0 then t.own else t.own + SaturatingSub(AskAll(t.peers, t.start, t.round).now, t.start)
  }

  /** What a peer reads of a grant, off the wire. */
  function WireGrant(grant: nat): nat {
    HopBudget(None, 0, FromParams(Absent, WireBudget(grant), None, 0).time).TimeBudget(0, 0)
  }

  /** A tree of hops that is one execution: each hop's own search stays within the leaf timeout, it chooses at
    * most its breadth of distinct connected peers, the exchange with each takes as long as that peer's own
    * subtree took, and a peer that was asked works against the grant it read. */
  ghost predicate Executes(t: Hop, hops: nat, fanOut: nat)
    decreases hops
  {
    && t.own <= FORWARDED_ASK_LEAF_TIMEOUT
    && (hops > 0 ==>
          && |t.peers| <= Breadth(fanOut) && Distinct(t.peers) && |t.below| == |t.peers|
          && (forall i :: 0 <= i < |t.peers| ==> Serves(t, hops, fanOut, i)))
  }

  ghost predicate Serves(t: Hop, hops: nat, fanOut: nat, i: nat)
    requires hops > 0 && i < |t.peers| == |t.below|
    decreases hops, 0
  {
    && t.peers[i] in t.round.pool && Executes(t.below[i], hops - 1, fanOut)
    && t.round.exchange(t.peers[i]).elapsed == Took(t.below[i], hops - 1)
    && (var asks := AskAll(t.peers, t.start, t.round).asks;
        i < |asks| && asks[i].peer == t.peers[i] ==>
          t.below[i].round.deadline == t.below[i].start + WireGrant(asks[i].grant))
  }

  /** At every hop of the tree every chosen peer was asked. */
  ghost predicate AllAsked(t: Hop, hops: nat)
    decreases hops
  {
    hops > 0 ==>
      var p := AskAll(t.peers, t.start, t.round);
      && !p.outOfTime && Peers(p.asks) == t.peers
      && forall i :: 0 <= i < |t.below| ==> AllAsked(t.below[i], hops - 1)
  }

  /** Whatever it was granted, no subtree takes longer than its whole need, as long as every hop's own search
    * stays within the leaf timeout. */
  lemma {:induction false} NoSubtreeOverruns(t: Hop, hops: nat, fanOut: nat)
    requires Executes(t, hops, fanOut)
    ensures Took(t, hops) <= Work(hops, fanOut)
    decreases hops
  {
    if hops == 0 {
    } else {
      var need := Work(hops - 1, fanOut);
      forall p | p in t.peers ensures t.round.exchange(p).elapsed <= need {
        var i :| 0 <= i < |t.peers| && t.peers[i] == p;
        assert Serves(t, hops, fanOut, i);
        NoSubtreeOverruns(t.below[i], hops - 1, fanOut);
      }
      ClockRunsOn(t.peers, t.start, t.round, need);
      SmallerFactor(|t.peers|, Breadth(fanOut), need);
    }
  }

  lemma SmallerFactor(a: nat, b: nat, x: nat)
    requires a <= b
    ensures a * x <= b * x
  {
    assert b * x == a * x + (b - a) * x;
  }

  /** A grant with a leaf timeout to spare covers its need after the wire's rounding. */
  lemma WireCovers(grant: nat, need: nat)
    requires grant >= FORWARDED_ASK_LEAF_TIMEOUT + need && need <= MAX_FORWARDED_ASK_BUDGET
    ensures WireGrant(grant) >= need
  {
    var ms := Min(grant / NANOS_PER_MILLI, U64_MAX);
    assert ms < U64_MAX ==> ms * NANOS_PER_MILLI + NANOS_PER_MILLI > grant;
  }

  lemma {:induction false} PeersOfAll(asks: seq<Ask>, peers: seq<string>)
    requires |asks| == |peers| && forall i :: 0 <= i < |asks| ==> asks[i].peer == peers[i]
    ensures Peers(asks) == peers
  {
    if asks == [] {
    } else {
      PeersOfAll(asks[..|asks| - 1], peers[..|asks| - 1]);
    }
  }

  /** One hop of such a tree: given its whole need on the wire, it asks every peer it chose. */
  lemma OneHopIsReached(t: Hop, hops: nat, fanOut: nat)
    requires hops > 0 && Executes(t, hops, fanOut) && t.round.deadline >= t.start + Work(hops, fanOut)
    ensures var p := AskAll(t.peers, t.start, t.round);
      && !p.outOfTime && Peers(p.asks) == t.peers && |p.asks| == |t.peers| && p.now <= t.round.deadline
      && (forall i :: 0 <= i < |t.peers| ==>
            p.asks[i].peer == t.peers[i] && p.asks[i].grant >= FORWARDED_ASK_LEAF_TIMEOUT + Work(hops - 1, fanOut))
  {
    var need := Work(hops - 1, fanOut);
    forall p | p in t.peers ensures p in t.round.pool && t.round.exchange(p).elapsed <= need {
      var i :| 0 <= i < |t.peers| && t.peers[i] == p;
      assert Serves(t, hops, fanOut, i);
      NoSubtreeOverruns(t.below[i], hops - 1, fanOut);
    }
    EveryChildCanFinish(t.peers, t.start, t.round, hops, fanOut);
    ClockRunsOn(t.peers, t.start, t.round, need);
    SmallerFactor(|t.peers|, Breadth(fanOut), need);
    PeersOfAll(AskAll(t.peers, t.start, t.round).asks, t.peers);
  }

  /** When the whole need fits under the ceiling and the first hop was given all of it on the wire, every chosen
    * peer at every hop of the tree is asked, and the first hop ends within its time. How much less is enough for the
    * asking is `AskTime.ATreeIsReachedExactlyWhen`; a first hop that derives its own time may hold too little, and
    * there the recursion may stop at the first peer: `AskTime.AnOriginatorsTreeIsReachedExactlyWhen`. */
  lemma {:induction false} EveryHopIsReached(t: Hop, hops: nat, fanOut: nat)
    requires Executes(t, hops, fanOut) && Work(hops, fanOut) <= MAX_FORWARDED_ASK_BUDGET
    requires hops > 0 ==> t.round.deadline >= t.start + Work(hops, fanOut)
    ensures AllAsked(t, hops) && Took(t, hops) <= Work(hops, fanOut)
    ensures hops > 0 ==> AskAll(t.peers, t.start, t.round).now <= t.round.deadline
    decreases hops
  {
    NoSubtreeOverruns(t, hops, fanOut);
    if hops == 0 {
    } else {
      WorkGrows(hops - 1, hops, fanOut);
      OneHopIsReached(t, hops, fanOut);
      forall i | 0 <= i < |t.below| ensures AllAsked(t.below[i], hops - 1) {
        ChildHoldsItsNeed(t, hops, fanOut, i);
        EveryHopIsReached(t.below[i], hops - 1, fanOut);
      }
    }
  }

  /** What a hop holding its whole need grants reaches each peer it chose as that peer's own whole need. */
  lemma ChildHoldsItsNeed(t: Hop, hops: nat, fanOut: nat, i: nat)
    requires hops > 0 && Executes(t, hops, fanOut) && Work(hops - 1, fanOut) <= MAX_FORWARDED_ASK_BUDGET
    requires t.round.deadline >= t.start + Work(hops, fanOut) && i < |t.below|
    ensures Executes(t.below[i], hops - 1, fanOut)
    ensures t.below[i].round.deadline >= t.below[i].start + Work(hops - 1, fanOut)
  {
    assert Serves(t, hops, fanOut, i);
    OneHopIsReached(t, hops, fanOut);
    var ask := AskAll(t.peers, t.start, t.round).asks[i];
    assert ask.peer == t.peers[i];
    WireCovers(ask.grant, Work(hops - 1, fanOut));
  }

  // ---------------------------------------------------------------------------------------------
  // A claim that walked nothing
  // ---------------------------------------------------------------------------------------------

  /** One question reaching this node's seen-set, what the set answered, and everything its leg depended on. */
  datatype Turn = Turn(content: ContentId, budget: HopBudget, env: Env, claimed: bool, now: nat) {
    function Question(): Question { (budget.askId, content) }

    function Leg(): Leg { Forwarded(budget, env, claimed, now) }

    /** Somebody was asked on the strength of this turn. */
    predicate Walked() { Leg().asks != [] }

    /** What asking takes besides the claim: time, and a chosen peer that is still connected. */
    predicate HasSomebodyToAsk()
      requires env.Reaches()
    {
      && budget.TimeBudget(env.decision.hopsRemaining, env.Bounds().fanOut) > 0
      && exists i :: 0 <= i < |env.decision.peers| && env.decision.peers[i] in env.pool
    }
  }

  function ClaimsOf(turns: seq<Turn>): (run: seq<Claim>)
    ensures |run| == |turns|
  {
    seq(|turns|, i requires 0 <= i < |turns| => Claim(turns[i].Question(), turns[i].now, turns[i].claimed))
  }

  /** The turns of one node's seen-set, in any order of questions, on a clock that never goes back. */
  ghost predicate TurnsRun(turns: seq<Turn>, states: seq<Seen>) {
    && (forall i :: 0 <= i < |turns| ==> turns[i].env.Reaches())
    && IsRun(ClaimsOf(turns), states, MAX_FORWARDED_ASK_BUDGET, ASK_SEEN_CAPACITY)
  }

  lemma {:induction false} NobodyConnected(peers: seq<string>, pool: set<string>)
    ensures Connected(peers, pool) == [] <==> forall i :: 0 <= i < |peers| ==> peers[i] !in pool
  {
    if peers == [] {
    } else {
      NobodyConnected(peers[..|peers| - 1], pool);
    }
  }

  lemma {:induction false} InTimeUntilTheFirst(peers: seq<string>, start: nat, r: Round)
    requires start < r.deadline
    ensures AskAll(peers, start, r).asks == []
      ==> AskAll(peers, start, r).now == start && !AskAll(peers, start, r).outOfTime
  {
    if peers == [] {
    } else {
      InTimeUntilTheFirst(peers[..|peers| - 1], start, r);
    }
  }

  /** A turn walks the question exactly when its claim was granted, a slot was free, there was time, and a
    * chosen peer was connected. */
  lemma WalksExactlyWhen(t: Turn)
    requires t.env.Reaches()
    ensures t.Walked() <==> t.claimed && t.env.slotFree && t.HasSomebodyToAsk()
  {
    if t.claimed && t.env.slotFree {
      var peers, r := t.env.decision.peers, RoundOf(t.budget, t.env, t.now);
      RoundIsFaithful(peers, t.now, r);
      NobodyConnected(peers, r.pool);
      if r.deadline > t.now {
        InTimeUntilTheFirst(peers, t.now, r);
      } else {
        NothingBeforeADeadlinePast(peers, t.now, r);
      }
    }
  }

  /** The turn a refusal collides with: the last grant of its question, still within its lifetime. */
  ghost predicate Collides(turns: seq<Turn>, i: nat, j: nat)
    requires i < j < |turns|
  {
    && turns[i].claimed && turns[i].Question() == turns[j].Question()
    && turns[j].now - turns[i].now < MAX_FORWARDED_ASK_BUDGET && NotRegranted(ClaimsOf(turns), i, j)
  }

  lemma {:induction false} LastGrant(run: seq<Claim>, j: nat, q: Question, i: nat) returns (last: nat)
    requires i < j <= |run| && run[i].granted && run[i].question == q
    ensures i <= last < j && run[last].granted && run[last].question == q
    ensures forall x :: last < x < j ==> !(run[x].granted && run[x].question == q)
  {
    if run[j - 1].granted && run[j - 1].question == q {
      last := j - 1;
    } else {
      last := LastGrant(run, j - 1, q, i);
    }
  }

  /** What a refusal as a duplicate stands for. It always collides with exactly one earlier turn; and although it
    * is answered as a walk some other path is making, that turn walked the question exactly when its slot was
    * free, its time was not up and a chosen peer was connected. */
  lemma ARefusalWasWalkedExactlyWhen(turns: seq<Turn>, states: seq<Seen>, j: nat)
    requires TurnsRun(turns, states) && j < |turns| && !turns[j].claimed
    ensures turns[j].Leg() == Leg(TurnedAway(), [], [], turns[j].now)
    ensures exists i :: 0 <= i < j && Collides(turns, i, j)
    ensures forall i, k :: 0 <= i < j && 0 <= k < j && Collides(turns, i, j) && Collides(turns, k, j) ==> i == k
    ensures forall i :: 0 <= i < j && Collides(turns, i, j) ==>
      (turns[i].Walked() <==> turns[i].env.slotFree && turns[i].HasSomebodyToAsk())
  {
    var run := ClaimsOf(turns);
    assert turns[j].env.Reaches();
    RefusedOnlyAsADuplicate(run, states, MAX_FORWARDED_ASK_BUDGET, ASK_SEEN_CAPACITY, j);
    var g :| 0 <= g < j && run[g].granted && run[g].question == run[j].question
      && run[j].now - run[g].now < MAX_FORWARDED_ASK_BUDGET;
    var last := LastGrant(run, j, run[j].question, g);
    assert run[g].now <= run[last].now;
    assert Collides(turns, last, j);
    forall i, k | 0 <= i < j && 0 <= k < j && Collides(turns, i, j) && Collides(turns, k, j) ensures i == k {
      assert run[i].granted && run[k].granted;
    }
    forall i | 0 <= i < j && Collides(turns, i, j)
      ensures turns[i].Walked() <==> turns[i].env.slotFree && turns[i].HasSomebodyToAsk()
    {
      assert turns[i].env.Reaches();
      WalksExactlyWhen(turns[i]);
    }
  }

  /** A question turned away for want of a slot has already been claimed. Nobody is asked then, nor at any turn
    * of it up to this one, through whatever other claims come in between; and this turn is refused as well,
    * however many slots are free by now, until the claim's lifetime ends or a capacity of others displaces it. */
  lemma ASlotRefusalConsumesTheClaim(turns: seq<Turn>, states: seq<Seen>, i: nat, j: nat)
    requires TurnsRun(turns, states) && i < j < |turns| && turns[i].Question() == turns[j].Question()
    requires turns[i].claimed && !turns[i].env.slotFree && NotRegranted(ClaimsOf(turns), i, j)
    ensures forall k :: i <= k < j && turns[k].Question() == turns[i].Question() ==> !turns[k].Walked()
    ensures var run := ClaimsOf(turns);
      var lifetimeLeft := turns[j].now - turns[i].now < MAX_FORWARDED_ASK_BUDGET;
      && (lifetimeLeft && GrantedSince(run, j, turns[i].now) <= ASK_SEEN_CAPACITY ==>
            !turns[j].claimed && turns[j].Leg() == Leg(TurnedAway(), [], [], turns[j].now))
      && (!lifetimeLeft || GrantedAfter(run, j, turns[i].now) >= ASK_SEEN_CAPACITY ==> turns[j].claimed)
      && (AloneAtItsInstant(run, i, j) ==>
            (!turns[j].claimed <==> lifetimeLeft && GrantedAfter(run, j, turns[i].now) < ASK_SEEN_CAPACITY))
  {
    var run := ClaimsOf(turns);
    forall k | i <= k < j && turns[k].Question() == turns[i].Question() ensures !turns[k].Walked() {
      assert turns[k].env.Reaches();
      WalksExactlyWhen(turns[k]);
      if k > i { assert run[k].question == run[i].question; }
    }
    assert turns[j].env.Reaches();
    if turns[j].claimed {
      WalkedTwiceOnlyWhenForgotten(run, states, MAX_FORWARDED_ASK_BUDGET, ASK_SEEN_CAPACITY, i, j);
    }
    if turns[j].now - turns[i].now >= MAX_FORWARDED_ASK_BUDGET
      || GrantedAfter(run, j, turns[i].now) >= ASK_SEEN_CAPACITY {
      ForgottenIsGrantedAgain(run, states, MAX_FORWARDED_ASK_BUDGET, ASK_SEEN_CAPACITY, i, j);
    }
    if AloneAtItsInstant(run, i, j) {
      WalkedAgainExactlyWhen(run, states, MAX_FORWARDED_ASK_BUDGET, ASK_SEEN_CAPACITY, i, j);
    }
  }

  /** The smallest such run: any question met with no slot free, and met again within its lifetime. */
  lemma RefusedForAWalkThatNeverWas(first: Turn, again: Turn) returns (turns: seq<Turn>, states: seq<Seen>)
    requires first.env.Reaches() && again.env.Reaches() && first.Question() == again.Question() && !first.env.slotFree
    requires first.now <= again.now < first.now + MAX_FORWARDED_ASK_BUDGET
    ensures turns == [first.(claimed := true), again.(claimed := false)] && TurnsRun(turns, states)
    ensures !turns[0].Walked() && !turns[1].Walked() && Collides(turns, 0, 1)
  {
    turns := [first.(claimed := true), again.(claimed := false)];
    var q := first.Question();
    var run;
    run, states := EveryScheduleRuns([(q, first.now), (q, again.now)], MAX_FORWARDED_ASK_BUDGET, ASK_SEEN_CAPACITY);
    if !run[0].granted { RefusedOnlyAsADuplicate(run, states, MAX_FORWARDED_ASK_BUDGET, ASK_SEEN_CAPACITY, 0); }
    if run[1].granted { WalkedTwiceOnlyWhenForgotten(run, states, MAX_FORWARDED_ASK_BUDGET, ASK_SEEN_CAPACITY, 0, 1); }
    assert run == ClaimsOf(turns);
    WalksExactlyWhen(turns[0]);
    WalksExactlyWhen(turns[1]);
  }
}
