/** What a node does about a content miss, and what a not-found from it may be taken to mean. */
module MissOutcome {
  import opened Common
  import opened ProviderRecords
  import opened HolderCache
  import opened HopBudget
  import opened ForwardedAsk
  import opened LocateHolders

  const REDIRECT_HOP_CAP: nat := 4

  datatype MissOutcome =
    | Fetched(resource: nat)
    | Redirect(providers: Slate, nextDepth: nat)
    | NotFound
    | Inconclusive
    | RateLimited

  /** A per-requestor budget one check of which spends a token when it has one. */
  datatype Gate = LookupGate | ProxyGate | RelayGate

  /** What fetching the content would give: the content; a download no located candidate delivered, after which
    * what led to those candidates is forgotten; or a download that ended but could not be used. */
  datatype Fetch = Got(resource: nat) | NobodyDelivered | Unusable

  /** What the miss depends on besides the search: whether the content engine is attached, what the two
    * limiters would answer, whether a fetch is asked for by the request or by the operator's mode, and what
    * fetching the content would give. */
  datatype Miss = Miss(engine: bool, lookupAllowed: bool, proxy: bool, fetchThrough: bool, local: bool,
                       proxyAllowed: bool, fetch: Fetch)
  {
    predicate WantsFetch() { proxy || fetchThrough }

    predicate Attempts() { WantsFetch() && (local || proxyAllowed) }

    /** The fetch leg runs and gives the content. */
    predicate Served() { Attempts() && fetch.Got? }

    /** The fetch leg runs and reaches nobody. */
    predicate Forgets() { engine && lookupAllowed && Attempts() && fetch.NobodyDelivered? }

    /** What of the remembered holders the fetch leg leaves. */
    function Left(holders: Holders, content: ContentId): Holders {
      if Forgets() then holders - {content} else holders
    }

    /** The miss reaches the search. */
    predicate Searches(budget: HopBudget) { engine && lookupAllowed && !Served() && budget.Used() < REDIRECT_HOP_CAP }
  }

  /** The outcome, when `located` is what searching would give. */
  function Outcome(m: Miss, budget: HopBudget, located: LocatedHolders): MissOutcome {
    if !m.engine then NotFound
    else if !m.lookupAllowed then RateLimited
    else if m.Served() then Fetched(m.fetch.resource)
    else if budget.Used() >= REDIRECT_HOP_CAP then NotFound
    else SearchOutcome(budget, located)
  }

  function SearchOutcome(budget: HopBudget, located: LocatedHolders): MissOutcome {
    if located.records != [] then Redirect(Candidates(located.records), budget.Used() + 1)
    else if located.EstablishesAbsence() then NotFound
    else Inconclusive
  }

  /** The search a miss runs, in one expression. */
  ghost function Searched(holders: Holders, content: ContentId, walk: Result<Slate>, budget: HopBudget, env: Env,
                          me: Option<string>, claimed: bool, at: Instants): LocatedHolders
  {
    Located(env.Bounds(), OwnSearch(Recalled(holders, content, at.now, at.nowSecs), walk, me),
            Forwarded(budget, env, claimed, at.asked).answers, me)
  }

  /** The budgets a miss draws on, in order. */
  function Consulted(m: Miss, budget: HopBudget, env: Env): seq<Gate> {
    if !m.engine then []
    else if !m.lookupAllowed then [LookupGate]
    else
      [LookupGate] + (if m.WantsFetch() && !m.local then [ProxyGate] else [])
        + (if m.Searches(budget) && env.installed then [RelayGate] else [])
  }

  /** These providers are the records located, every one of them and in their order. */
  predicate Presents(providers: Slate, located: seq<Tagged>) {
    |providers| == |located| && forall i :: 0 <= i < |providers| ==> providers[i] == located[i].record
  }

  /** The redirect leg: search, and say what the search established. */
  method AnswerBySearching(content: ContentId, budget: HopBudget, me: Option<string>, walk: Result<Slate>, env: Env,
                           cache: FirstHandHolderCache, seen: AskSeenSet, slots: AskSlots, at: Instants)
    returns (outcome: MissOutcome, located: LocatedHolders, ghost claimed: bool)
    requires cache.Valid() && slots.Valid()
    modifies cache.holders, seen.seen, slots
    ensures slots.Valid() && slots.held == old(slots.held) && outcome == SearchOutcome(budget, located)
    ensures var met := env.WithSlots(old(slots.held));
      located == Searched(old(cache.holders.entries), content, walk, budget, met, me, claimed, at)
    ensures Remembers(old(cache.holders.entries), cache.holders.entries, content, walk, me, at)
    ensures outcome.Redirect? <==> located.records != []
    ensures outcome.Redirect? ==> Presents(outcome.providers, located.records)
  {
    ghost var own, leg;
    located, own, leg, claimed := Locate(content, budget, me, walk, env, cache, seen, slots, at);
    outcome := AnswerWith(located, budget);
  }

  /** What the search established, as an answer. */
  method AnswerWith(located: LocatedHolders, budget: HopBudget) returns (outcome: MissOutcome)
    ensures outcome == SearchOutcome(budget, located)
    ensures outcome.Redirect? <==> located.records != []
    ensures outcome.Redirect? ==> Presents(outcome.providers, located.records)
  {
    if located.records == [] {
      outcome := if located.conclusive then NotFound else Inconclusive;
    } else {
      CandidatesAt(located.records);
      outcome := Redirect(Candidates(located.records), budget.Used() + 1);
    }
  }

  // ---------------------------------------------------------------------------------------------
  // What a not-found means
  // ---------------------------------------------------------------------------------------------

  /** The answer to a miss that meets these remembered holders. */
  ghost function Answer(m: Miss, holders: Holders, content: ContentId, walk: Result<Slate>, budget: HopBudget, env: Env,
                        me: Option<string>, claimed: bool, at: Instants): MissOutcome
  {
    Outcome(m, budget, Searched(m.Left(holders, content), content, walk, budget, env, me, claimed, at))
  }

  /** Not-found, exactly: there is no engine to search with, or an admitted miss that no fetch served either
    * has its redirects used up or ran this node's own search to the end, alone, and found nobody else. A fetch that
    * reached nobody has forgotten any holders remembered before it. */
  lemma NotFoundExactlyWhen(m: Miss, holders: Holders, content: ContentId, walk: Result<Slate>, budget: HopBudget,
                            env: Env, me: Option<string>, claimed: bool, at: Instants)
    requires Clean(holders, me)
    ensures Answer(m, holders, content, walk, budget, env, me, claimed, at) == NotFound
      <==> (|| !m.engine
            || (&& m.lookupAllowed && !m.Served()
                && (|| budget.Used() >= REDIRECT_HOP_CAP
                    || (&& (!env.installed || env.decision == Refuse(Disabled))
                        && (m.Forgets() || Recalled(holders, content, at.now, at.nowSecs).None?)
                        && walk.Ok? && (forall r :: r in walk.value ==> Names(r, me))))))
  {
    assert Clean(m.Left(holders, content), me);
    AbsenceExactlyWhen(m.Left(holders, content), content, walk, budget, env, me, claimed, at);
  }

  /** The five answers, exactly, in what the miss depends on. */
  lemma AnswersExactlyWhen(m: Miss, budget: HopBudget, located: LocatedHolders)
    ensures var o := Outcome(m, budget, located);
      var depth := match budget.hops case None => 0 case Some(hops) => hops;
      var admitted := m.engine && m.lookupAllowed;
      var served := (m.proxy || m.fetchThrough) && (m.local || m.proxyAllowed) && m.fetch.Got?;
      && (o == RateLimited <==> m.engine && !m.lookupAllowed)
      && (o.Fetched? <==> admitted && served) && (o.Fetched? ==> m.fetch == Got(o.resource))
      && (o.Redirect? <==> admitted && !served && depth < 4 && located.records != [])
      && (o.Redirect? ==> o.nextDepth == depth + 1 && Presents(o.providers, located.records))
      && (o == Inconclusive <==> admitted && !served && depth < 4 && located.records == [] && !located.conclusive)
      && (o == NotFound <==>
            !m.engine || (admitted && !served && (depth >= 4 || (located.records == [] && located.conclusive))))
  {
    CandidatesAt(located.records);
  }

  /** Which holders a redirect names, exactly: of everything the search heard - this node's own findings first, then
    * the admitted hearsay - the first record of every holder but this node, in that order. So this node's own findings
    * lead every redirect in their order, and nobody's word displaces one. */
  lemma ARedirectNames(m: Miss, holders: Holders, content: ContentId, walk: Result<Slate>, budget: HopBudget, env: Env,
                       me: Option<string>, claimed: bool, at: Instants) returns (picks: seq<nat>)
    requires Answer(m, holders, content, walk, budget, env, me, claimed, at).Redirect?
    ensures var o := Answer(m, holders, content, walk, budget, env, me, claimed, at);
      var forgotten := (m.proxy || m.fetchThrough) && (m.local || m.proxyAllowed) && m.fetch.NobodyDelivered?;
      var cached := if forgotten then None else Recalled(holders, content, at.now, at.nowSecs);
      var own := if cached.Some? then cached.value else if walk.Ok? then walk.value else [];
      var heard := Heard(env.Bounds(), own, Forwarded(budget, env, claimed, at.asked).answers.records);
      && Selects(heard, picks, o.providers) && FirstMentions(heard, me, picks)
  {
    var left := m.Left(holders, content);
    var located := Searched(left, content, walk, budget, env, me, claimed, at);
    AnswersExactlyWhen(m, budget, located);
    picks := WhatASearchFinds(left, content, walk, budget, env, me, claimed, at);
  }

  /** The other answers, exactly. A requestor over its budget is refused before anything else is spent; a
    * remote one's proxy budget is drawn on only when a fetch is wanted and the lookup was admitted; the relay
    * budget only when the search runs with an asker installed; and a search that found nobody but may not
    * say so is inconclusive. */
  lemma OtherOutcomesExactlyWhen(m: Miss, budget: HopBudget, env: Env, located: LocatedHolders)
    ensures var o, gates := Outcome(m, budget, located), Consulted(m, budget, env);
      && (o == RateLimited <==> m.engine && !m.lookupAllowed)
      && (o.Fetched? <==> m.engine && m.lookupAllowed && m.Served())
      && (o.Redirect? <==> m.Searches(budget) && located.records != [])
      && (o == Inconclusive <==> m.Searches(budget) && located.records == [] && !located.conclusive)
      && (o == RateLimited ==> gates == [LookupGate])
      && (LookupGate in gates <==> m.engine)
      && (ProxyGate in gates <==> m.engine && m.lookupAllowed && m.WantsFetch() && !m.local)
      && (RelayGate in gates <==> m.Searches(budget) && env.installed)
      && (o.Fetched? ==> RelayGate !in gates && (m.local || m.proxyAllowed))
  {
  }

  /** Not-found is documented as asserting an absence its search established. It does so exactly when a
    * search ran: with an engine attached and redirects left. */
  lemma NotFoundAssertsAnAbsenceExactlyWhen(m: Miss, budget: HopBudget, located: LocatedHolders)
    requires Outcome(m, budget, located) == NotFound
    ensures m.Searches(budget) && located.EstablishesAbsence() <==> m.engine && budget.Used() < REDIRECT_HOP_CAP
  {
  }

  /** The other way to it: at the redirect cap, whatever the network holds - here a search that would have
    * found a holder, and one that would have failed - the answer is the same not-found. */
  lemma NotFoundWithoutASearch(m: Miss, budget: HopBudget, holder: Tagged)
    requires m.engine && m.lookupAllowed && !m.Served() && budget.Used() == REDIRECT_HOP_CAP
    ensures Outcome(m, budget, LocatedHolders([holder], true)) == NotFound
    ensures Outcome(m, budget, LocatedHolders([], false)) == NotFound
  {
  }

  /** No peer asked on can turn a miss into a not-found, or a not-found into something else, by anything it says. */
  lemma NotFoundIgnoresPeers(m: Miss, holders: Holders, content: ContentId, walk: Result<Slate>, budget: HopBudget,
                             env: Env, other: string -> Exchange, me: Option<string>, claimed: bool, at: Instants)
    ensures Answer(m, holders, content, walk, budget, env, me, claimed, at) == NotFound
        <==> Answer(m, holders, content, walk, budget, env.(exchange := other), me, claimed, at) == NotFound
  {
    var left, swapped := m.Left(holders, content), env.(exchange := other);
    var own := OwnSearch(Recalled(left, content, at.now, at.nowSecs), walk, me);
    AbsenceIgnoresPeers(own, budget, env, other, me, claimed, at.asked);
    if m.Searches(budget) {
      NotFoundAmongSearches(m, budget, Searched(left, content, walk, budget, env, me, claimed, at));
      NotFoundAmongSearches(m, budget, Searched(left, content, walk, budget, swapped, me, claimed, at));
    }
  }

  lemma NotFoundAmongSearches(m: Miss, budget: HopBudget, located: LocatedHolders)
    requires m.Searches(budget)
    ensures Outcome(m, budget, located) == NotFound <==> located.EstablishesAbsence()
  {
  }

  /** The answer to the i-th miss of a run, which searches or does not; its own fetch leg's forgetting, if there was
    * one, is an event of its own before it. */
  ghost function MissAt(holders: Holders, e: CacheEvent, m: Miss, part: PeersPart, me: Option<string>): MissOutcome
    requires !e.Forgets?
  {
    Outcome(m, part.budget,
            if e.Rests? then LocatedHolders([], false)
            else Searched(holders, e.content, e.walk, part.budget, part.env, me, part.claimed, e.at))
  }

  /** These misses are those of the run: each event but the forgetting ones is a miss, searching exactly when
    * the event is a locate. */
  ghost predicate MissesOf(events: seq<CacheEvent>, misses: seq<Miss>, parts: seq<PeersPart>) {
    && |misses| == |parts| == |events|
    && forall i :: 0 <= i < |events| ==>
      events[i].Forgets? || (events[i].Locates? <==> misses[i].Searches(parts[i].budget))
  }

  /** The same over whole runs: a node that sees the same misses, walks, forgettings and switch gives the same
    * not-founds at every one of them, whatever the peers it asked on sent, were picked, claimed, answered or failed
    * to answer. */
  lemma RunsGiveTheSameNotFounds(events: seq<CacheEvent>, caches: seq<Holders>, me: Option<string>, misses: seq<Miss>,
                                 a: seq<PeersPart>, b: seq<PeersPart>)
    requires CacheRun(events, caches, me) && MissesOf(events, misses, a) && MissesOf(events, misses, b)
    requires forall i :: 0 <= i < |a| ==> a[i].env.Honours(a[i].budget, a[i].asker, me)
    requires forall i :: 0 <= i < |b| ==> b[i].env.Honours(b[i].budget, b[i].asker, me)
    requires forall i :: 0 <= i < |a| ==>
      Offers(a[i].env) == Offers(b[i].env) && a[i].budget.Used() == b[i].budget.Used()
    ensures forall i :: 0 <= i < |events| && !events[i].Forgets? ==>
      (MissAt(caches[i], events[i], misses[i], a[i], me) == NotFound
       <==> MissAt(caches[i], events[i], misses[i], b[i], me) == NotFound)
  {
    RunsEstablishTheSameAbsences(events, caches, me, a, b);
    forall i | 0 <= i < |events| && !events[i].Forgets?
      ensures MissAt(caches[i], events[i], misses[i], a[i], me) == NotFound
          <==> MissAt(caches[i], events[i], misses[i], b[i], me) == NotFound
    {
      if events[i].Locates? {
        assert AbsenceAt(caches[i], events[i], a[i], me) == AbsenceAt(caches[i], events[i], b[i], me);
        SearchedNotFound(caches[i], events[i], misses[i], a[i], me);
        SearchedNotFound(caches[i], events[i], misses[i], b[i], me);
      }
    }
  }

  lemma SearchedNotFound(holders: Holders, e: CacheEvent, m: Miss, part: PeersPart, me: Option<string>)
    requires e.Locates? && m.Searches(part.budget)
    ensures MissAt(holders, e, m, part, me) == NotFound <==> AbsenceAt(holders, e, part, me)
  {
    NotFoundAmongSearches(m, part.budget,
                          Searched(holders, e.content, e.walk, part.budget, part.env, me, part.claimed, e.at));
  }

  // ---------------------------------------------------------------------------------------------
  // Redirects
  // ---------------------------------------------------------------------------------------------

  /** One request of a caller: how the node that got it stood, the budget the request carried, and what searching
    * gave there. */
  datatype Visit = Visit(m: Miss, budget: HopBudget, located: LocatedHolders) {
    function Answered(): MissOutcome { Outcome(m, budget, located) }
  }

  /** A caller following redirects: every node so far answered with one, and each answer's depth is what the next
    * request carries. */
  ghost predicate Follows(visits: seq<Visit>) {
    && (forall i :: 0 <= i < |visits| ==> visits[i].Answered().Redirect?)
    && (forall i :: 0 < i < |visits| ==> Echoes(visits[i - 1].Answered(), visits[i].budget))
  }

  ghost predicate Echoes(outcome: MissOutcome, next: HopBudget) {
    outcome.Redirect? && exists ms, id, minted :: next == FromParams(Number(outcome.nextDepth), ms, id, minted)
  }

  /** Every redirect can be followed: it names somebody, never this node and nobody twice, and it carries the
    * next depth within the cap. */
  lemma RedirectsAreUsable(m: Miss, own: Result<Slate>, budget: HopBudget, env: Env, me: Option<string>,
                           claimed: bool, now: nat)
    requires Outcome(m, budget, Located(env.Bounds(), own, Forwarded(budget, env, claimed, now).answers, me)).Redirect?
    ensures var o := Outcome(m, budget, Located(env.Bounds(), own, Forwarded(budget, env, claimed, now).answers, me));
      && o.providers != [] && o.nextDepth == budget.Used() + 1 <= REDIRECT_HOP_CAP
      && (forall i :: 0 <= i < |o.providers| ==> !Names(o.providers[i], me))
      && (forall i, j :: 0 <= i < j < |o.providers| ==> o.providers[i].peerId != o.providers[j].peerId)
  {
    var answers := Forwarded(budget, env, claimed, now).answers;
    var mine := if own.Ok? then own.value else [];
    CandidatesLeadFirstHand(env.Bounds(), mine, answers, me);
    var records := Combined(env.Bounds(), mine, true, answers, me).records;
    CandidatesAt(records);
    forall i | 0 <= i < |records| ensures !Names(records[i].record, me) { assert records[i] in records; }
  }

  lemma {:induction false} CandidatesAt(records: seq<Tagged>)
    ensures |Candidates(records)| == |records|
    ensures forall i :: 0 <= i < |records| ==> Candidates(records)[i] == records[i].record
  {
    if records == [] {
    } else {
      CandidatesAt(records[..|records| - 1]);
    }
  }

  /** A caller is bounced at most as often as the cap allows, through whatever nodes it is sent. */
  lemma {:induction false} RedirectChainsEnd(visits: seq<Visit>, k: nat)
    requires Follows(visits) && k < |visits|
    ensures visits[k].budget.Used() >= k && k < REDIRECT_HOP_CAP
  {
    assert visits[k].Answered().Redirect?;
    if k == 0 {
    } else {
      RedirectChainsEnd(visits, k - 1);
      assert Echoes(visits[k - 1].Answered(), visits[k].budget);
    }
  }
}
