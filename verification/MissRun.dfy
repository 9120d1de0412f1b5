/** Requests over time: one node answering any sequence of them, with its three per-requestor limiters in front of
  * what each may spend.
  *
  * The limiters are those of `RateLimit`, each asked exactly when the handlers ask it; so what a requestor can
  * make this node spend, by whichever requests, is bounded in every window of every run. */
module MissRun {
  import opened Common
  import opened ProviderRecords
  import opened HolderCache
  import opened HopBudget
  import opened ForwardedAsk
  import opened LocateHolders
  import opened MissOutcome
  import R = RateLimit
  import T = TokenAccounting
  import N = AskNetwork

  /** The rates of the three limiters: cheap lookups, proxy fetches, and asks on others' behalf. */
  datatype Limits = Limits(lookup: R.Rate, proxy: R.Rate, relay: R.Rate) {
    predicate Valid() { lookup.Valid() && proxy.Valid() && relay.Valid() }
  }

  const DEFAULT_LIMITS := Limits(R.Rate(16.0, 4.0), R.Rate(4.0, 1.0), R.Rate(4.0, 1.0))

  /** One request that may spend something: who asks and when, and everything the answer depends on but the
    * limiters. It is a content miss; or one item of an availability batch that this node does not hold, which
    * names holders found by the same search (`engine` says that there is an engine and a well-formed key to search
    * for); or a request that may have a whole capsule relayed, with what its four free gates find: whether it asks for
    * that, whether there is an engine, whether the operator switched relaying on, and whether there is a warmer to pull
    * capsules with. */
  datatype Request =
    | Missing(requestor: R.RequestorId, at: real, engine: bool, proxy: bool, fetchThrough: bool, fetch: Fetch,
              budget: HopBudget, env: Env, claimed: bool, asked: nat)
    | Item(requestor: R.RequestorId, at: real, engine: bool, budget: HopBudget, env: Env, claimed: bool, asked: nat)
    | Relaying(requestor: R.RequestorId, at: real, wanted: bool, engine: bool, switchedOn: bool, warmer: bool)
  {
    function Call(): R.Call { R.Call(requestor.Key(), at) }

    function Asker(): Option<string> { if requestor.Peer? then Some(requestor.id) else None }

    /** The miss, given what the two limiters in front of it answer. */
    function Missed(lookupAllowed: bool, proxyAllowed: bool): Miss
      requires Missing?
    {
      Miss(engine, lookupAllowed, proxy, fetchThrough, requestor.Local?, proxyAllowed, fetch)
    }

    /** The limiters asked, in order, given what the first two answer. */
    function Gates(lookupAllowed: bool, proxyAllowed: bool): seq<Gate> {
      match this
      case Missing(_, _, _, _, _, _, _, _, _, _) => Consulted(Missed(lookupAllowed, proxyAllowed), budget, env)
      case Item(_, _, _, _, _, _, _) =>
        if !engine then []
        else [LookupGate] + (if lookupAllowed && env.installed then [RelayGate] else [])
      case Relaying(_, _, _, _, _, _) => if Ready() && !requestor.Local? then [ProxyGate] else []
    }

    /** Every gate that costs nothing lets the relay through. */
    predicate Ready()
      requires Relaying?
    {
      wanted && engine && switchedOn && warmer
    }

    predicate LooksUp() { !Relaying? && engine }

    /** The proxy limiter is asked. */
    predicate AsksToFetch(lookupAllowed: bool) {
      match this
      case Missing(_, _, _, _, _, _, _, _, _, _) => engine && lookupAllowed && (proxy || fetchThrough)
        && !requestor.Local?
      case Item(_, _, _, _, _, _, _) => false
      case Relaying(_, _, _, _, _, _) => Ready() && !requestor.Local?
    }

    predicate Searches(lookupAllowed: bool, proxyAllowed: bool) {
      match this
      case Missing(_, _, _, _, _, _, _, _, _, _) => Missed(lookupAllowed, proxyAllowed).Searches(budget)
      case Item(_, _, _, _, _, _, _) => engine && lookupAllowed
      case Relaying(_, _, _, _, _, _) => false
    }

    /** The relay limiter is asked. */
    predicate AsksToForward(lookupAllowed: bool, proxyAllowed: bool) {
      Searches(lookupAllowed, proxyAllowed) && env.installed
    }
  }

  /** Every check made of each limiter so far. */
  datatype Checks = Checks(lookup: seq<R.Call>, proxy: seq<R.Call>, relay: seq<R.Call>)

  /** What a limiter answers after those checks. */
  ghost predicate Admits(rate: R.Rate, checks: seq<R.Call>, c: R.Call) {
    R.CheckStep(R.Run(rate, checks).0, rate, c.key, c.at).1 == R.Admitted
  }

  ghost predicate LookupAllowed(l: Limits, checks: Checks, r: Request) { Admits(l.lookup, checks.lookup, r.Call()) }

  ghost predicate ProxyAllowed(l: Limits, checks: Checks, r: Request) { Admits(l.proxy, checks.proxy, r.Call()) }

  ghost function EnvAfter(l: Limits, checks: Checks, r: Request): Env
    requires !r.Relaying?
  {
    r.env.(relayBudget := Admits(l.relay, checks.relay, r.Call()))
  }

  function Checked(checks: seq<R.Call>, consulted: bool, c: R.Call): seq<R.Call> {
    if consulted then checks + [c] else checks
  }

  /** The checks after one request: the limiters it consults are asked once more. */
  ghost function Next(l: Limits, checks: Checks, r: Request): Checks {
    var gates := r.Gates(LookupAllowed(l, checks, r), ProxyAllowed(l, checks, r));
    Checks(Checked(checks.lookup, LookupGate in gates, r.Call()), Checked(checks.proxy, ProxyGate in gates, r.Call()),
           Checked(checks.relay, RelayGate in gates, r.Call()))
  }

  ghost function ChecksOf(l: Limits, requests: seq<Request>): Checks {
    if requests == [] then Checks([], [], [])
    else Next(l, ChecksOf(l, requests[..|requests| - 1]), requests[|requests| - 1])
  }

  // ---------------------------------------------------------------------------------------------
  // The handlers with their limiters
  // ---------------------------------------------------------------------------------------------

  /** A limiter's table after the check, if it was asked. */
  function TableAfter(t: R.Table, rate: R.Rate, asked: bool, c: R.Call): R.Table {
    if asked then R.CheckStep(t, rate, c.key, c.at).0 else t
  }

  predicate Answers(t: R.Table, rate: R.Rate, c: R.Call) { R.CheckStep(t, rate, c.key, c.at).1 == R.Admitted }

  /** What a limiter would answer this request now. */
  ghost predicate Allows(limiter: R.MissRateLimiter, r: Request)
    reads limiter
  {
    Answers(limiter.table, limiter.Limits(), r.Call())
  }

  /** The table a limiter has after this request, if it is asked. */
  ghost function Spent(limiter: R.MissRateLimiter, asked: bool, r: Request): R.Table
    reads limiter
  {
    TableAfter(limiter.table, limiter.Limits(), asked, r.Call())
  }

  /** A limiter's say, where it is asked for it; where it is not, the answer is fixed. */
  method CheckWhen(asked: bool, otherwise: bool, limiter: R.MissRateLimiter, r: Request) returns (allowed: bool)
    requires limiter.Valid()
    modifies limiter, limiter.Repr
    ensures limiter.Valid() && fresh(limiter.Repr - old(limiter.Repr))
    ensures limiter.table == old(Spent(limiter, asked, r))
    ensures allowed == if asked then old(Allows(limiter, r)) else otherwise
  {
    allowed := otherwise;
    if asked { allowed := limiter.Check(r.requestor, r.at); }
  }

  /** Fetch-through behind the proxy limiter, from which the operator is exempt; a download that reaches nobody
    * forgets the holders remembered. */
  method TryFetchGoverned(content: ContentId, r: Request, proxy: R.MissRateLimiter, cache: FirstHandHolderCache)
    returns (fetched: Option<nat>)
    requires r.Missing? && r.engine && proxy.Valid()
    modifies proxy, proxy.Repr, cache.holders
    ensures proxy.Valid() && fresh(proxy.Repr - old(proxy.Repr))
    ensures var m := r.Missed(true, old(Allows(proxy, r)));
      && fetched == (if m.Served() then Some(r.fetch.resource) else None)
      && proxy.table == old(Spent(proxy, r.AsksToFetch(true), r))
      && cache.holders.entries == m.Left(old(cache.holders.entries), content)
  {
    fetched := None;
    var wanted := r.proxy || r.fetchThrough;
    var admitted := CheckWhen(wanted && !r.requestor.Local?, wanted, proxy, r);
    if admitted {
      match r.fetch {
        case Got(resource) => fetched := Some(resource);
        case NobodyDelivered => cache.Forget(content);
        case Unusable =>
      }
    }
  }

  /** The three limiters of one node share nothing. */
  ghost predicate Apart(lookup: R.MissRateLimiter, proxy: R.MissRateLimiter, relay: R.MissRateLimiter)
    reads lookup, proxy, relay
  {
    && lookup != proxy && lookup != relay && proxy != relay
    && lookup.Repr !! proxy.Repr && lookup.Repr !! relay.Repr && proxy.Repr !! relay.Repr
  }

  /** What the two limiters in front of the search make of a miss. */
  ghost function MissAgainst(r: Request, lookup: R.MissRateLimiter, proxy: R.MissRateLimiter): Miss
    requires r.Missing?
    reads lookup, proxy
  {
    r.Missed(Allows(lookup, r), Allows(proxy, r))
  }

  /** Everything before the search: the answer, unless it takes one. */
  method Admit(content: ContentId, r: Request, lookup: R.MissRateLimiter, proxy: R.MissRateLimiter,
               cache: FirstHandHolderCache) returns (early: Option<MissOutcome>)
    requires r.Missing? && lookup.Valid() && proxy.Valid() && lookup != proxy && lookup.Repr !! proxy.Repr
    modifies lookup, lookup.Repr, proxy, proxy.Repr, cache.holders
    ensures lookup.Valid() && proxy.Valid() && lookup.Repr !! proxy.Repr
    ensures fresh(lookup.Repr - old(lookup.Repr)) && fresh(proxy.Repr - old(proxy.Repr))
    ensures var m := old(MissAgainst(r, lookup, proxy));
      && (early.None? <==> m.Searches(r.budget))
      && (early.Some? ==> early.value == Outcome(m, r.budget, LocatedHolders([], false)))
      && lookup.table == old(Spent(lookup, r.LooksUp(), r))
      && proxy.table == old(Spent(proxy, r.AsksToFetch(m.lookupAllowed), r))
      && cache.holders.entries == m.Left(old(cache.holders.entries), content)
  {
    if !r.engine { return Some(NotFound); }
    var admitted := lookup.Check(r.requestor, r.at);
    if !admitted { return Some(RateLimited); }
    var fetched := TryFetchGoverned(content, r, proxy, cache);
    if fetched.Some? { return Some(Fetched(fetched.value)); }
    early := if r.budget.Used() >= REDIRECT_HOP_CAP then Some(NotFound) else None;
  }

  /** The same beside the relay limiter, which it leaves alone. */
  method AdmitBeside(content: ContentId, r: Request, lookup: R.MissRateLimiter, proxy: R.MissRateLimiter,
                     relay: R.MissRateLimiter, cache: FirstHandHolderCache) returns (early: Option<MissOutcome>)
    requires r.Missing? && lookup.Valid() && proxy.Valid() && relay.Valid() && Apart(lookup, proxy, relay)
    modifies lookup, lookup.Repr, proxy, proxy.Repr, cache.holders
    ensures lookup.Valid() && proxy.Valid() && relay.Valid() && Apart(lookup, proxy, relay)
    ensures relay.table == old(relay.table) && relay.Repr == old(relay.Repr)
    ensures var m := old(MissAgainst(r, lookup, proxy));
      && (early.None? <==> m.Searches(r.budget))
      && (early.Some? ==> early.value == Outcome(m, r.budget, LocatedHolders([], false)))
      && lookup.table == old(Spent(lookup, r.LooksUp(), r))
      && proxy.table == old(Spent(proxy, r.AsksToFetch(m.lookupAllowed), r))
      && cache.holders.entries == m.Left(old(cache.holders.entries), content)
  {
    early := Admit(content, r, lookup, proxy, cache);
  }

  /** The environment a leg meets when the relay limiter has had its say, which it is asked for only with an asker
    * installed, and with the node's slots as they are. */
  ghost function EnvAgainst(r: Request, relay: R.MissRateLimiter, slots: AskSlots): Env
    requires !r.Relaying?
    reads relay, slots
  {
    r.env.(relayBudget := r.env.installed && Allows(relay, r)).WithSlots(slots.held)
  }

  /** The search, behind the relay limiter. */
  method SearchGoverned(content: ContentId, r: Request, me: Option<string>, walk: Result<Slate>,
                        relay: R.MissRateLimiter,
                        cache: FirstHandHolderCache, seen: AskSeenSet, slots: AskSlots, instants: Instants)
    returns (outcome: MissOutcome, located: LocatedHolders, ghost claimed: bool)
    requires !r.Relaying? && cache.Valid() && relay.Valid() && slots.Valid()
    modifies cache.holders, seen.seen, slots, relay, relay.Repr
    ensures relay.Valid() && fresh(relay.Repr - old(relay.Repr)) && slots.Valid() && slots.held == old(slots.held)
    ensures relay.table == old(Spent(relay, r.env.installed, r)) && outcome == SearchOutcome(r.budget, located)
    ensures var met := old(EnvAgainst(r, relay, slots));
      located == Searched(old(cache.holders.entries), content, walk, r.budget, met, me, claimed, instants)
    ensures Remembers(old(cache.holders.entries), cache.holders.entries, content, walk, me, instants)
  {
    var relayBudget := CheckWhen(r.env.installed, false, relay, r);
    outcome, located, claimed :=
      AnswerBySearching(content, r.budget, me, walk, r.env.(relayBudget := relayBudget), cache, seen, slots, instants);
  }

  /** The same beside the limiters already asked, which it leaves alone. */
  method SearchBeside(content: ContentId, r: Request, me: Option<string>, walk: Result<Slate>,
                      lookup: R.MissRateLimiter, proxy: R.MissRateLimiter, relay: R.MissRateLimiter,
                      cache: FirstHandHolderCache, seen: AskSeenSet, slots: AskSlots, instants: Instants)
    returns (outcome: MissOutcome, located: LocatedHolders, ghost claimed: bool)
    requires !r.Relaying? && cache.Valid() && slots.Valid()
    requires lookup.Valid() && proxy.Valid() && relay.Valid() && Apart(lookup, proxy, relay)
    modifies cache.holders, seen.seen, slots, relay, relay.Repr
    ensures lookup.Valid() && proxy.Valid() && relay.Valid() && Apart(lookup, proxy, relay)
    ensures slots.Valid() && slots.held == old(slots.held)
    ensures lookup.table == old(lookup.table) && proxy.table == old(proxy.table)
    ensures relay.table == old(Spent(relay, r.env.installed, r)) && outcome == SearchOutcome(r.budget, located)
    ensures var met := old(EnvAgainst(r, relay, slots));
      located == Searched(old(cache.holders.entries), content, walk, r.budget, met, me, claimed, instants)
    ensures Remembers(old(cache.holders.entries), cache.holders.entries, content, walk, me, instants)
  {
    outcome, located, claimed := SearchGoverned(content, r, me, walk, relay, cache, seen, slots, instants);
    assert unchanged(lookup) && unchanged(lookup.Repr);
    assert unchanged(proxy) && unchanged(proxy.Repr);
  }

  /** One miss, start to end, spending from its limiters as it goes: the lookup limiter before anything else, the
    * proxy limiter only for a fetch a remote requestor wants, and the relay limiter only on reaching an
    * installed asker. What it searches is what its fetch, if it made one, left remembered. */
  method DecideGoverned(content: ContentId, r: Request, me: Option<string>, walk: Result<Slate>,
                        lookup: R.MissRateLimiter, proxy: R.MissRateLimiter, relay: R.MissRateLimiter,
                        cache: FirstHandHolderCache, seen: AskSeenSet, slots: AskSlots, instants: Instants)
    returns (outcome: MissOutcome, ghost m: Miss, ghost located: LocatedHolders, ghost claimed: bool)
    requires r.Missing? && cache.Valid() && slots.Valid()
    requires lookup.Valid() && proxy.Valid() && relay.Valid() && Apart(lookup, proxy, relay)
    modifies cache.holders, seen.seen, slots, lookup, lookup.Repr, proxy, proxy.Repr, relay, relay.Repr
    ensures lookup.Valid() && proxy.Valid() && relay.Valid() && Apart(lookup, proxy, relay)
    ensures slots.Valid() && slots.held == old(slots.held)
    ensures m == old(MissAgainst(r, lookup, proxy)) && outcome == Outcome(m, r.budget, located)
    ensures lookup.table == old(Spent(lookup, r.LooksUp(), r))
    ensures proxy.table == old(Spent(proxy, r.AsksToFetch(Allows(lookup, r)), r))
    ensures relay.table == old(Spent(relay, r.AsksToForward(Allows(lookup, r), Allows(proxy, r)), r))
    ensures var left := m.Left(old(cache.holders.entries), content);
      if m.Searches(r.budget) then
        && located == Searched(left, content, walk, r.budget, old(EnvAgainst(r, relay, slots)), me, claimed, instants)
        && Remembers(left, cache.holders.entries, content, walk, me, instants)
      else cache.holders.entries == left && seen.seen.entries == old(seen.seen.entries)
  {
    m := MissAgainst(r, lookup, proxy);
    located, claimed := LocatedHolders([], false), false;
    SearchingAsks(r, m.lookupAllowed, m.proxyAllowed);
    var early := AdmitBeside(content, r, lookup, proxy, relay, cache);
    if early.Some? {
      return early.value, m, located, claimed;
    }
    ghost var found;
    outcome, found, claimed := SearchBeside(content, r, me, walk, lookup, proxy, relay, cache, seen, slots, instants);
    located := found;
  }

  /** What a miss that searches asks of the relay limiter, and is answered. */
  lemma SearchingAsks(r: Request, lookupAllowed: bool, proxyAllowed: bool)
    requires r.Missing?
    ensures var m := r.Missed(lookupAllowed, proxyAllowed);
      && r.AsksToForward(lookupAllowed, proxyAllowed) == (m.Searches(r.budget) && r.env.installed)
      && forall located :: m.Searches(r.budget) ==> Outcome(m, r.budget, located) == SearchOutcome(r.budget, located)
  {
  }

  /** Whether an item may search, beside the limiters it is not asking yet. */
  method AdmitItem(r: Request, lookup: R.MissRateLimiter, proxy: R.MissRateLimiter, relay: R.MissRateLimiter)
    returns (admitted: bool)
    requires r.Item? && lookup.Valid() && proxy.Valid() && relay.Valid() && Apart(lookup, proxy, relay)
    modifies lookup, lookup.Repr
    ensures lookup.Valid() && proxy.Valid() && relay.Valid() && Apart(lookup, proxy, relay)
    ensures proxy.table == old(proxy.table) && relay.table == old(relay.table) && relay.Repr == old(relay.Repr)
    ensures lookup.table == old(Spent(lookup, r.LooksUp(), r)) && admitted == (r.engine && old(Allows(lookup, r)))
  {
    admitted := CheckWhen(r.engine, false, lookup, r);
  }

  /** One availability item this node does not hold: the holders to name and whether an absence was established, when
    * the lookup limiter lets it search at all. */
  method EnrichGoverned(content: ContentId, r: Request, me: Option<string>, walk: Result<Slate>,
                        lookup: R.MissRateLimiter, proxy: R.MissRateLimiter, relay: R.MissRateLimiter,
                        cache: FirstHandHolderCache, seen: AskSeenSet, slots: AskSlots, instants: Instants)
    returns (located: Option<LocatedHolders>, ghost claimed: bool)
    requires r.Item? && cache.Valid() && slots.Valid()
    requires lookup.Valid() && proxy.Valid() && relay.Valid() && Apart(lookup, proxy, relay)
    modifies cache.holders, seen.seen, slots, lookup, lookup.Repr, relay, relay.Repr
    ensures lookup.Valid() && proxy.Valid() && relay.Valid() && Apart(lookup, proxy, relay)
    ensures slots.Valid() && slots.held == old(slots.held)
    ensures lookup.table == old(Spent(lookup, r.LooksUp(), r)) && proxy.table == old(proxy.table)
    ensures relay.table == old(Spent(relay, r.AsksToForward(Allows(lookup, r), false), r))
    ensures located.Some? <==> r.engine && old(Allows(lookup, r))
    ensures located.Some? ==>
      && located.value == Searched(old(cache.holders.entries), content, walk, r.budget,
                                   old(EnvAgainst(r, relay, slots)), me, claimed, instants)
      && Remembers(old(cache.holders.entries), cache.holders.entries, content, walk, me, instants)
    ensures located.None? ==>
      cache.holders.entries == old(cache.holders.entries) && seen.seen.entries == old(seen.seen.entries)
  {
    located, claimed := None, false;
    var admitted := AdmitItem(r, lookup, proxy, relay);
    if !admitted { return; }
    var found;
    ghost var outcome;
    outcome, found, claimed := SearchBeside(content, r, me, walk, lookup, proxy, relay, cache, seen, slots, instants);
    located := Some(found);
  }

  /** A capsule to be relayed: pulled exactly when every free gate lets it through and, for a remote requestor, the
    * proxy limiter does; and when a free gate does not, no token is spent finding that out. */
  method RelayGoverned(r: Request, proxy: R.MissRateLimiter) returns (pulled: bool)
    requires r.Relaying? && proxy.Valid()
    modifies proxy, proxy.Repr
    ensures proxy.Valid() && proxy.table == old(Spent(proxy, r.AsksToFetch(true), r))
    ensures pulled <==>
      r.wanted && r.engine && r.switchedOn && r.warmer && (r.requestor.Local? || old(Allows(proxy, r)))
    ensures !(r.wanted && r.engine && r.switchedOn && r.warmer) ==> proxy.table == old(proxy.table)
  {
    if !r.wanted { return false; }
    if !r.engine { return false; }
    if !r.switchedOn { return false; }
    if !r.warmer { return false; }
    pulled := CheckWhen(!r.requestor.Local?, true, proxy, r);
  }

  // ---------------------------------------------------------------------------------------------
  // The run the limiters see
  // ---------------------------------------------------------------------------------------------

  /** Which limiters one request is checked against, exactly, in what it carries and what the two in front of the search
    * answer it. */
  lemma ChecksExactlyWhen(r: Request, lookupAllowed: bool, proxyAllowed: bool)
    ensures var gates := r.Gates(lookupAllowed, proxyAllowed);
      match r
      case Missing(requestor, _, engine, proxy, fetchThrough, fetch, budget, env, _, _) =>
        var wants, remote := proxy || fetchThrough, requestor != R.Local;
        var served := wants && (remote ==> proxyAllowed) && fetch.Got?;
        var depth := match budget.hops case None => 0 case Some(hops) => hops;
        && (LookupGate in gates <==> engine)
        && (ProxyGate in gates <==> engine && lookupAllowed && wants && remote)
        && (RelayGate in gates <==> engine && lookupAllowed && !served && depth < 4 && env.installed)
      case Item(_, _, engine, _, env, _, _) =>
        && (LookupGate in gates <==> engine) && ProxyGate !in gates
        && (RelayGate in gates <==> engine && lookupAllowed && env.installed)
      case Relaying(requestor, _, wanted, engine, switchedOn, warmer) =>
        && LookupGate !in gates && RelayGate !in gates
        && (ProxyGate in gates <==> wanted && engine && switchedOn && warmer && requestor != R.Local)
    ensures var gates := r.Gates(lookupAllowed, proxyAllowed);
      && (r.LooksUp() <==> LookupGate in gates) && (r.AsksToFetch(lookupAllowed) <==> ProxyGate in gates)
      && (r.AsksToForward(lookupAllowed, proxyAllowed) <==> RelayGate in gates)
  {
    GatesMean(r, lookupAllowed, proxyAllowed);
  }

  /** Which limiters one request is checked against. */
  lemma GatesMean(r: Request, lookupAllowed: bool, proxyAllowed: bool)
    ensures var gates := r.Gates(lookupAllowed, proxyAllowed);
      && (LookupGate in gates <==> r.LooksUp())
      && (ProxyGate in gates <==> r.AsksToFetch(lookupAllowed))
      && (RelayGate in gates <==> r.AsksToForward(lookupAllowed, proxyAllowed))
  {
    if r.Missing? {
      OtherOutcomesExactlyWhen(r.Missed(lookupAllowed, proxyAllowed), r.budget, r.env, LocatedHolders([], false));
    }
  }

  lemma ChecksOneMore(l: Limits, checks: Checks, r: Request)
    ensures var lookup, proxy := LookupAllowed(l, checks, r), ProxyAllowed(l, checks, r);
      Next(l, checks, r) == Checks(
        Checked(checks.lookup, r.LooksUp(), r.Call()),
        Checked(checks.proxy, r.AsksToFetch(lookup), r.Call()),
        Checked(checks.relay, r.AsksToForward(lookup, proxy), r.Call()))
  {
    GatesMean(r, LookupAllowed(l, checks, r), ProxyAllowed(l, checks, r));
  }

  lemma TableOneMore(rate: R.Rate, checks: seq<R.Call>, asked: bool, c: R.Call)
    ensures R.Run(rate, Checked(checks, asked, c)).0 == TableAfter(R.Run(rate, checks).0, rate, asked, c)
    ensures Admits(rate, checks, c) == Answers(R.Run(rate, checks).0, rate, c)
  {
    if asked {
      assert (checks + [c])[..|checks|] == checks;
      R.RunOneMore(rate, checks + [c], |checks|);
    }
  }

  /** The handlers' limiters follow the run: tables that are those of the checks so far are, after one more request,
    * those of the checks with it; and what the limiters answer it is what the run says. */
  lemma TablesFollowTheRun(l: Limits, checks: Checks, r: Request, lookup: R.Table, proxy: R.Table, relay: R.Table)
    requires lookup == R.Run(l.lookup, checks.lookup).0 && proxy == R.Run(l.proxy, checks.proxy).0
    requires relay == R.Run(l.relay, checks.relay).0
    ensures var asked, fetching := Answers(lookup, l.lookup, r.Call()), Answers(proxy, l.proxy, r.Call());
      && asked == LookupAllowed(l, checks, r) && fetching == ProxyAllowed(l, checks, r)
      && (!r.Relaying? ==> Answers(relay, l.relay, r.Call()) == EnvAfter(l, checks, r).relayBudget)
      && R.Run(l.lookup, Next(l, checks, r).lookup).0 == TableAfter(lookup, l.lookup, r.LooksUp(), r.Call())
      && R.Run(l.proxy, Next(l, checks, r).proxy).0 == TableAfter(proxy, l.proxy, r.AsksToFetch(asked), r.Call())
      && R.Run(l.relay, Next(l, checks, r).relay).0
         == TableAfter(relay, l.relay, r.AsksToForward(asked, fetching), r.Call())
  {
    var asked, fetching := LookupAllowed(l, checks, r), ProxyAllowed(l, checks, r);
    ChecksOneMore(l, checks, r);
    TableOneMore(l.lookup, checks.lookup, r.LooksUp(), r.Call());
    TableOneMore(l.proxy, checks.proxy, r.AsksToFetch(asked), r.Call());
    TableOneMore(l.relay, checks.relay, r.AsksToForward(asked, fetching), r.Call());
  }

  // ---------------------------------------------------------------------------------------------
  // What one requestor can make this node spend
  // ---------------------------------------------------------------------------------------------

  predicate InWindow(r: Request, who: R.RequestorId, from: real, to: real) { r.requestor == who && from <= r.at <= to }

  /** A request that has this node search; a fetch or a whole pull begun for a remote requestor; a leg that asked
    * somebody. */
  ghost predicate Searching(l: Limits, checks: Checks, r: Request) {
    r.Searches(LookupAllowed(l, checks, r), ProxyAllowed(l, checks, r))
  }

  ghost predicate Fetching(l: Limits, checks: Checks, r: Request) {
    r.AsksToFetch(LookupAllowed(l, checks, r)) && ProxyAllowed(l, checks, r)
  }

  ghost predicate Forwarding(l: Limits, checks: Checks, r: Request) {
    Searching(l, checks, r) && Forwarded(r.budget, EnvAfter(l, checks, r), r.claimed, r.asked).asks != []
  }

  function One(b: bool): nat { if b then 1 else 0 }

  /** How many of one requestor's requests in a window did each. */
  ghost function SearchesIn(l: Limits, requests: seq<Request>, who: R.RequestorId, from: real, to: real): nat {
    if requests == [] then 0 else
      var n := |requests| - 1;
      SearchesIn(l, requests[..n], who, from, to)
        + One(InWindow(requests[n], who, from, to) && Searching(l, ChecksOf(l, requests[..n]), requests[n]))
  }

  ghost function FetchesIn(l: Limits, requests: seq<Request>, who: R.RequestorId, from: real, to: real): nat {
    if requests == [] then 0 else
      var n := |requests| - 1;
      FetchesIn(l, requests[..n], who, from, to)
        + One(InWindow(requests[n], who, from, to) && Fetching(l, ChecksOf(l, requests[..n]), requests[n]))
  }

  ghost function ForwardsIn(l: Limits, requests: seq<Request>, who: R.RequestorId, from: real, to: real): nat {
    if requests == [] then 0 else
      var n := |requests| - 1;
      ForwardsIn(l, requests[..n], who, from, to)
        + One(InWindow(requests[n], who, from, to) && Forwarding(l, ChecksOf(l, requests[..n]), requests[n]))
  }

  /** Requests on a clock that never goes back, each with a budget as a constructor makes it, and with a decision
    * that honours its contract given what the relay limiter answered. */
  ghost predicate IsRun(l: Limits, requests: seq<Request>, me: Option<string>) {
    && (forall i, j :: 0 <= i <= j < |requests| ==> requests[i].at <= requests[j].at)
    && (forall i :: 0 <= i < |requests| ==> Meets(l, ChecksOf(l, requests[..i]), requests[i], me))
  }

  ghost predicate Meets(l: Limits, checks: Checks, r: Request, me: Option<string>) {
    !r.Relaying? ==> r.budget.Valid() && EnvAfter(l, checks, r).Honours(r.budget, r.Asker(), me)
  }

  lemma RunOfAPrefix(l: Limits, requests: seq<Request>, me: Option<string>, n: nat)
    requires IsRun(l, requests, me) && n <= |requests|
    ensures IsRun(l, requests[..n], me)
  {
    forall i | 0 <= i < n ensures Meets(l, ChecksOf(l, requests[..n][..i]), requests[..n][i], me) {
      assert requests[..n][..i] == requests[..i];
      assert Meets(l, ChecksOf(l, requests[..i]), requests[i], me);
    }
  }

  /** The checks of a limiter come in the order of the requests. */
  ghost predicate Timely(checks: seq<R.Call>, now: real) {
    R.Ordered(checks) && forall i :: 0 <= i < |checks| ==> checks[i].at <= now
  }

  lemma TimelyOneMore(checks: seq<R.Call>, asked: bool, c: R.Call, earlier: real)
    requires Timely(checks, earlier) && earlier <= c.at
    ensures Timely(Checked(checks, asked, c), c.at)
  {
  }

  ghost predicate AllTimely(c: Checks, now: real) {
    Timely(c.lookup, now) && Timely(c.proxy, now) && Timely(c.relay, now)
  }

  lemma NextIsTimely(l: Limits, checks: Checks, r: Request, earlier: real)
    requires AllTimely(checks, earlier) && earlier <= r.at
    ensures AllTimely(Next(l, checks, r), r.at)
  {
    var asked, fetching := LookupAllowed(l, checks, r), ProxyAllowed(l, checks, r);
    ChecksOneMore(l, checks, r);
    TimelyOneMore(checks.lookup, r.LooksUp(), r.Call(), earlier);
    TimelyOneMore(checks.proxy, r.AsksToFetch(asked), r.Call(), earlier);
    TimelyOneMore(checks.relay, r.AsksToForward(asked, fetching), r.Call(), earlier);
  }

  lemma {:induction false} ChecksAreTimely(l: Limits, requests: seq<Request>)
    requires forall i, j :: 0 <= i <= j < |requests| ==> requests[i].at <= requests[j].at
    ensures AllTimely(ChecksOf(l, requests), if requests == [] then 0.0 else requests[|requests| - 1].at)
  {
    if requests == [] {
    } else {
      var n := |requests| - 1;
      ChecksAreTimely(l, requests[..n]);
      NextIsTimely(l, ChecksOf(l, requests[..n]), requests[n], if n == 0 then requests[n].at else requests[n - 1].at);
    }
  }

  /** One check more counts for its requestor exactly when it is admitted in the window. */
  lemma CountOneMore(rate: R.Rate, checks: seq<R.Call>, asked: bool, c: R.Call, key: string, from: real, to: real)
    ensures R.AdmittedIn(R.Run(rate, Checked(checks, asked, c)).1, key, from, to)
         == R.AdmittedIn(R.Run(rate, checks).1, key, from, to)
            + (if asked && c.key == key && Admits(rate, checks, c) && from <= c.at <= to then 1 else 0)
  {
    if asked {
      assert (checks + [c])[..|checks|] == checks;
      R.RunOneMore(rate, checks + [c], |checks|);
      R.AdmittedOfOneMore(R.Run(rate, checks).1, R.Told(R.Run(rate, checks).0, rate, c), key, from, to);
    }
  }

  /** A leg that asks somebody was let through by the relay limiter, with hops left to spend. */
  lemma ForwardingIsAdmitted(l: Limits, checks: Checks, r: Request, me: Option<string>)
    requires Meets(l, checks, r, me) && Forwarding(l, checks, r)
    ensures !r.Relaying? && r.env.installed && Admits(l.relay, checks.relay, r.Call())
    ensures r.budget.hops.Some? && r.budget.Used() < r.env.Bounds().hopCap
  {
    LegIsBounded(r.budget, EnvAfter(l, checks, r), r.Asker(), me, r.claimed, r.asked);
  }

  function AdmittedTo(rate: R.Rate, checks: seq<R.Call>, who: R.RequestorId, from: real, to: real): nat {
    R.AdmittedIn(R.Run(rate, checks).1, who.Key(), from, to)
  }

  /** One request spends nothing a limiter did not admit it to. */
  lemma OneMoreIsAdmitted(l: Limits, checks: Checks, r: Request, me: Option<string>, who: R.RequestorId, from: real,
                          to: real)
    requires Meets(l, checks, r, me)
    ensures var next, mine := Next(l, checks, r), InWindow(r, who, from, to);
      && AdmittedTo(l.lookup, checks.lookup, who, from, to) + One(mine && Searching(l, checks, r))
           <= AdmittedTo(l.lookup, next.lookup, who, from, to)
      && AdmittedTo(l.proxy, checks.proxy, who, from, to) + One(mine && Fetching(l, checks, r))
           <= AdmittedTo(l.proxy, next.proxy, who, from, to)
      && AdmittedTo(l.relay, checks.relay, who, from, to) + One(mine && Forwarding(l, checks, r))
           <= AdmittedTo(l.relay, next.relay, who, from, to)
  {
    var asked, fetching, c := LookupAllowed(l, checks, r), ProxyAllowed(l, checks, r), r.Call();
    ChecksOneMore(l, checks, r);
    if Forwarding(l, checks, r) { ForwardingIsAdmitted(l, checks, r, me); }
    CountOneMore(l.lookup, checks.lookup, r.LooksUp(), c, who.Key(), from, to);
    CountOneMore(l.proxy, checks.proxy, r.AsksToFetch(asked), c, who.Key(), from, to);
    CountOneMore(l.relay, checks.relay, r.AsksToForward(asked, fetching), c, who.Key(), from, to);
  }

  /** Every search, remote fetch and leg of a run has an admission of its own behind it. */
  lemma {:induction false} EachIsAdmitted(l: Limits, requests: seq<Request>, me: Option<string>, who: R.RequestorId,
                                          from: real, to: real)
    requires IsRun(l, requests, me)
    ensures var c := ChecksOf(l, requests);
      && SearchesIn(l, requests, who, from, to) <= AdmittedTo(l.lookup, c.lookup, who, from, to)
      && FetchesIn(l, requests, who, from, to) <= AdmittedTo(l.proxy, c.proxy, who, from, to)
      && ForwardsIn(l, requests, who, from, to) <= AdmittedTo(l.relay, c.relay, who, from, to)
  {
    if requests == [] {
    } else {
      var n := |requests| - 1;
      RunOfAPrefix(l, requests, me, n);
      EachIsAdmitted(l, requests[..n], me, who, from, to);
      assert Meets(l, ChecksOf(l, requests[..n]), requests[n], me);
      OneMoreIsAdmitted(l, ChecksOf(l, requests[..n]), requests[n], me, who, from, to);
    }
  }

  /** The bounds the three limiters exist for: over any window of any run, however misses, availability items and
    * relays are mixed, whoever else asks and whatever peers answer, one requestor causes at most a burst and the
    * window's refill of searches, of fetches and relay pulls (when it is remote), and of legs that ask other nodes -
    * each from its own limiter. */
  lemma SpendingIsBounded(l: Limits, requests: seq<Request>, me: Option<string>, who: R.RequestorId, from: real,
                          to: real)
    requires l.Valid() && IsRun(l, requests, me) && from <= to
    ensures SearchesIn(l, requests, who, from, to) as real
      <= T.Ceiling(l.lookup.capacity, l.lookup.refillPerSec, 0.0, from, to)
    ensures FetchesIn(l, requests, who, from, to) as real
      <= T.Ceiling(l.proxy.capacity, l.proxy.refillPerSec, 0.0, from, to)
    ensures ForwardsIn(l, requests, who, from, to) as real
      <= T.Ceiling(l.relay.capacity, l.relay.refillPerSec, 0.0, from, to)
  {
    var c := ChecksOf(l, requests);
    EachIsAdmitted(l, requests, me, who, from, to);
    ChecksAreTimely(l, requests);
    R.AdmissionIsBoundedInEveryWindow(l.lookup, c.lookup, who.Key(), from, to);
    R.AdmissionIsBoundedInEveryWindow(l.proxy, c.proxy, who.Key(), from, to);
    R.AdmissionIsBoundedInEveryWindow(l.relay, c.relay, who.Key(), from, to);
  }

  // ---------------------------------------------------------------------------------------------
  // Whom one requestor can make this node recruit
  // ---------------------------------------------------------------------------------------------

  /** How far one question travelled through the network. */
  datatype Travel = Travel(world: N.World, start: nat, events: seq<N.Event>)

  /** These travels are those of this request's question: the same configuration and the same budget. */
  ghost predicate Carries(t: Travel, r: Request)
    requires !r.Relaying?
  {
    && t.world.config == r.env.Bounds() && t.world.first == r.budget && t.world.asker == r.Asker()
    && N.Reached(t.world, t.start, t.events).Some?
  }

  ghost function Recruited(t: Travel): nat {
    var net := N.Reached(t.world, t.start, t.events);
    if net.None? then 0 else SaturatingSub(|net.value.asks|, 1)
  }

  /** The nodes the last of these requests recruited, as far as they count. */
  ghost function RecruitedByLast(l: Limits, requests: seq<Request>, travels: seq<Travel>, who: R.RequestorId,
                                 from: real,
                                 to: real): nat
    requires |travels| == |requests| > 0
  {
    var n := |requests| - 1;
    if InWindow(requests[n], who, from, to) && Forwarding(l, ChecksOf(l, requests[..n]), requests[n])
    then Recruited(travels[n]) else 0
  }

  /** The nodes recruited by one requestor's questions in a window. */
  ghost function RecruitedIn(l: Limits, requests: seq<Request>, travels: seq<Travel>, who: R.RequestorId, from: real,
                             to: real): nat
    requires |travels| == |requests|
  {
    if requests == [] then 0 else
      var n := |requests| - 1;
      RecruitedIn(l, requests[..n], travels[..n], who, from, to)
        + RecruitedByLast(l, requests, travels, who, from, to)
  }

  /** A run of one configuration, in which each question that is forwarded has its travels. */
  ghost predicate Travelled(l: Limits, requests: seq<Request>, travels: seq<Travel>, config: Config) {
    && |travels| == |requests|
    && forall i :: 0 <= i < |requests| ==> CarriesOn(l, ChecksOf(l, requests[..i]), requests[i], travels[i], config)
  }

  ghost predicate CarriesOn(l: Limits, checks: Checks, r: Request, t: Travel, config: Config) {
    Forwarding(l, checks, r) ==> r.env.Bounds() == config && Carries(t, r)
  }

  lemma TravelledPrefix(l: Limits, requests: seq<Request>, travels: seq<Travel>, config: Config, n: nat)
    requires Travelled(l, requests, travels, config) && n <= |requests|
    ensures Travelled(l, requests[..n], travels[..n], config)
  {
    forall i | 0 <= i < n
      ensures CarriesOn(l, ChecksOf(l, requests[..n][..i]), requests[..n][i], travels[..n][i], config)
    {
      assert requests[..n][..i] == requests[..i];
      assert CarriesOn(l, ChecksOf(l, requests[..i]), requests[i], travels[i], config);
    }
  }

  lemma OneTravelIsBounded(l: Limits, checks: Checks, r: Request, me: Option<string>, t: Travel)
    requires Meets(l, checks, r, me) && Forwarding(l, checks, r) && Carries(t, r)
    ensures Recruited(t) <= N.Recruits(r.env.Bounds().fanOut, r.env.Bounds().hopCap)
  {
    ForwardingIsAdmitted(l, checks, r, me);
    N.QuestionsAreBounded(t.world, t.start, t.events, 0);
    N.RecruitsGrow(r.env.Bounds().fanOut, t.world.HopsLeft(), r.env.Bounds().hopCap);
  }

  ghost predicate LastCounts(l: Limits, requests: seq<Request>, who: R.RequestorId, from: real, to: real)
    requires requests != []
  {
    var n := |requests| - 1;
    InWindow(requests[n], who, from, to) && Forwarding(l, ChecksOf(l, requests[..n]), requests[n])
  }

  /** No more than so many for each. */
  predicate AtMostEach(total: nat, each: nat, count: nat) { total <= each * count }

  lemma LastIsBounded(l: Limits, requests: seq<Request>, travels: seq<Travel>, me: Option<string>, config: Config,
                      who: R.RequestorId, from: real, to: real, each: nat)
    requires IsRun(l, requests, me) && Travelled(l, requests, travels, config) && requests != []
    requires each == N.Recruits(config.fanOut, config.hopCap)
    ensures AtMostEach(RecruitedByLast(l, requests, travels, who, from, to), each,
                       One(LastCounts(l, requests, who, from, to)))
  {
    OneMoreRecruits(l, requests, travels, me, config, |requests| - 1);
  }

  lemma SumsOneMore(l: Limits, requests: seq<Request>, travels: seq<Travel>, who: R.RequestorId, from: real, to: real)
    requires |travels| == |requests| > 0
    ensures var n := |requests| - 1;
      && RecruitedIn(l, requests, travels, who, from, to)
         == RecruitedIn(l, requests[..n], travels[..n], who, from, to)
           + RecruitedByLast(l, requests, travels, who, from, to)
      && ForwardsIn(l, requests, who, from, to)
         == ForwardsIn(l, requests[..n], who, from, to) + One(LastCounts(l, requests, who, from, to))
  {
  }

  lemma Extends(each: nat, total: nat, count: nat, more: nat, ones: nat, newTotal: nat, newCount: nat)
    requires AtMostEach(total, each, count) && AtMostEach(more, each, ones)
    requires newTotal == total + more && newCount == count + ones
    ensures AtMostEach(newTotal, each, newCount)
  {
    assert each * newCount == each * count + each * ones;
  }

  lemma RecruitsOneMore(l: Limits, requests: seq<Request>, travels: seq<Travel>, who: R.RequestorId, from: real,
                        to: real,
                        each: nat)
    requires |travels| == |requests| > 0
    requires AtMostEach(RecruitedIn(l, requests[..|requests| - 1], travels[..|requests| - 1], who, from, to), each,
                        ForwardsIn(l, requests[..|requests| - 1], who, from, to))
    requires AtMostEach(RecruitedByLast(l, requests, travels, who, from, to), each,
                        One(LastCounts(l, requests, who, from, to)))
    ensures AtMostEach(RecruitedIn(l, requests, travels, who, from, to), each, ForwardsIn(l, requests, who, from, to))
  {
    SumsOneMore(l, requests, travels, who, from, to);
    Extends(each, RecruitedIn(l, requests[..|requests| - 1], travels[..|requests| - 1], who, from, to),
            ForwardsIn(l, requests[..|requests| - 1], who, from, to),
            RecruitedByLast(l, requests, travels, who, from, to), One(LastCounts(l, requests, who, from, to)),
            RecruitedIn(l, requests, travels, who, from, to), ForwardsIn(l, requests, who, from, to));
  }

  lemma {:induction false} RecruitsAreForwards(l: Limits, requests: seq<Request>, travels: seq<Travel>,
                                               me: Option<string>, config: Config, who: R.RequestorId, from: real,
                                               to: real, each: nat)
    requires IsRun(l, requests, me) && Travelled(l, requests, travels, config)
    requires each == N.Recruits(config.fanOut, config.hopCap)
    ensures AtMostEach(RecruitedIn(l, requests, travels, who, from, to), each, ForwardsIn(l, requests, who, from, to))
  {
    if requests == [] {
    } else {
      var n := |requests| - 1;
      RunOfAPrefix(l, requests, me, n);
      TravelledPrefix(l, requests, travels, config, n);
      RecruitsAreForwards(l, requests[..n], travels[..n], me, config, who, from, to, each);
      LastIsBounded(l, requests, travels, me, config, who, from, to, each);
      RecruitsOneMore(l, requests, travels, who, from, to, each);
    }
  }

  lemma OneMoreRecruits(l: Limits, requests: seq<Request>, travels: seq<Travel>, me: Option<string>, config: Config,
                        n: nat)
    requires IsRun(l, requests, me) && Travelled(l, requests, travels, config) && n < |requests|
    ensures Forwarding(l, ChecksOf(l, requests[..n]), requests[n]) ==>
      Recruited(travels[n]) <= N.Recruits(config.fanOut, config.hopCap)
  {
    assert Meets(l, ChecksOf(l, requests[..n]), requests[n], me);
    assert CarriesOn(l, ChecksOf(l, requests[..n]), requests[n], travels[n], config);
    if Forwarding(l, ChecksOf(l, requests[..n]), requests[n]) {
      OneTravelIsBounded(l, ChecksOf(l, requests[..n]), requests[n], me, travels[n]);
    }
  }

  /** So many nodes for each leg, as a real bound. */
  function ForEach(each: nat, legs: real): real { each as real * legs }

  lemma ScaledCeiling(total: nat, each: nat, count: nat, ceiling: real)
    requires total <= each * count && count as real <= ceiling
    ensures total as real <= ForEach(each, ceiling)
  {
    assert (each * count) as real == each as real * count as real;
    T.ProductNonNegative(each as real, ceiling - count as real);
  }

  function RelayCeiling(l: Limits, from: real, to: real): real {
    T.Ceiling(l.relay.capacity, l.relay.refillPerSec, 0.0, from, to)
  }

  lemma LegsAreBounded(l: Limits, requests: seq<Request>, me: Option<string>, who: R.RequestorId, from: real, to: real)
    requires l.Valid() && IsRun(l, requests, me) && from <= to
    ensures ForwardsIn(l, requests, who, from, to) as real <= RelayCeiling(l, from, to)
  {
    SpendingIsBounded(l, requests, me, who, from, to);
  }

  /** One requestor, over any window of any run, makes this node recruit at most one question's worth of nodes for
    * each leg the relay limiter lets through: the sum of the powers, times a burst and the window's refill. */
  lemma RecruitmentIsBounded(l: Limits, requests: seq<Request>, travels: seq<Travel>, me: Option<string>,
                             config: Config, who: R.RequestorId, from: real, to: real)
    requires l.Valid() && IsRun(l, requests, me) && Travelled(l, requests, travels, config) && from <= to
    ensures RecruitedIn(l, requests, travels, who, from, to) as real
         <= ForEach(N.Recruits(config.fanOut, config.hopCap), RelayCeiling(l, from, to))
  {
    LegsAreBounded(l, requests, me, who, from, to);
    RecruitsAreForwards(l, requests, travels, me, config, who, from, to, N.Recruits(config.fanOut, config.hopCap));
    ScaledCeiling(RecruitedIn(l, requests, travels, who, from, to), N.Recruits(config.fanOut, config.hopCap),
                  ForwardsIn(l, requests, who, from, to), RelayCeiling(l, from, to));
  }

  /** The documented figure: at the defaults, a full relay burst recruits at most forty-eight nodes. */
  lemma FortyEightPerBurst(requests: seq<Request>, travels: seq<Travel>, me: Option<string>, config: Config,
                           who: R.RequestorId, at: real)
    requires IsRun(DEFAULT_LIMITS, requests, me) && Travelled(DEFAULT_LIMITS, requests, travels, config)
    requires config.fanOut == 3 && config.hopCap == 2
    ensures RecruitedIn(DEFAULT_LIMITS, requests, travels, who, at, at) <= 48
  {
    N.TwelveRecruits();
    RecruitmentIsBounded(DEFAULT_LIMITS, requests, travels, me, config, who, at, at);
  }
}
