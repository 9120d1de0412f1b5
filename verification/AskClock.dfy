/** How long a question stays under way, measured against how long a seen-set remembers it.
  *
  * Each hop's deadline is fixed when its own leg begins, after the message's travel and its own search, so
  * deadlines slip down the tree by that much a hop. */
module AskClock {
  import opened Common
  import opened HolderCache
  import opened HopBudget
  import opened ForwardedAsk
  import opened AskNetwork
  import opened AskOnce

  /** The last instant at which a leg `k` hops below the first may still ask somebody. */
  function Due(w: World, start: nat, delay: nat, k: nat): nat { start + Allotted(w) + k * delay }

  lemma DueOneMore(w: World, start: nat, delay: nat, k: nat)
    ensures Due(w, start, delay, k + 1) == Due(w, start, delay, k) + delay
  {
  }

  lemma DueGrows(w: World, start: nat, delay: nat, k: nat, m: nat)
    requires k <= m
    ensures Due(w, start, delay, k) <= Due(w, start, delay, m)
  {
    SmallerFactor(k, m, delay);
  }

  /** The first node reaches its leg at once - the run is timed from there - and every other within `delay` of the
    * question being sent to it. */
  ghost predicate OnTime(n: Net, e: Event, delay: nat) {
    e.Deliver? && e.i < |n.asks| && e.env.Reaches() ==> n.now - n.asks[e.i].at <= if e.i == 0 then 0 else delay
  }

  ghost predicate Prompt(w: World, start: nat, events: seq<Event>, delay: nat) {
    events == [] ||
    (var before := Reached(w, start, events[..|events| - 1]);
     && Prompt(w, start, events[..|events| - 1], delay)
     && (before.Some? ==> OnTime(before.value, events[|events| - 1], delay)))
  }

  // ---------------------------------------------------------------------------------------------
  // Deadlines slip by one delay a hop
  // ---------------------------------------------------------------------------------------------

  /** How many hops below the first this arrival is. */
  function Below(w: World, a: Activation): nat { SaturatingSub(a.Depth(), w.first.Used()) }

  ghost predicate SentInTime(w: World, start: nat, delay: nat, a: Activation) {
    Below(w, a) > 0 ==>
      a.at + Allowance(a.budget) <= Due(w, start, delay, Below(w, a) - 1)
        && a.at < Due(w, start, delay, Below(w, a) - 1)
  }

  ghost predicate AsksInTime(w: World, start: nat, delay: nat, a: Activation) {
    a.status.Working? ==> a.status.round.deadline <= Due(w, start, delay, Below(w, a))
  }

  /** A claim the question was forwarded on came at the first instant, or before the last hop that may forward was
    * due. */
  ghost predicate ClaimedInTime(w: World, start: nat, delay: nat, now: nat) {
    now == start || now < Due(w, start, delay, SaturatingSub(w.HopsLeft(), 1))
  }

  /** When the claim was made that this forwarding stands on. */
  function ClaimedAt(n: Net, f: Forwarding): nat {
    var run := n.HistoryOf(f.node).run;
    if f.claim < |run| then run[f.claim].now else 0
  }

  /** The claim of this forwarding is on record, and came in time. */
  ghost predicate ForwardedInTime(w: World, start: nat, delay: nat, n: Net, f: Forwarding) {
    f.claim < |n.HistoryOf(f.node).run| && ClaimedInTime(w, start, delay, ClaimedAt(n, f))
  }

  ghost predicate InTime(w: World, start: nat, delay: nat, asks: seq<Activation>, i: nat)
    requires i < |asks|
  {
    && (i == 0 ==> asks[i].at == start)
    && SentInTime(w, start, delay, asks[i]) && AsksInTime(w, start, delay, asks[i])
  }

  ghost predicate AllInTime(w: World, start: nat, delay: nat, asks: seq<Activation>) {
    forall i :: 0 <= i < |asks| ==> InTime(w, start, delay, asks, i)
  }

  ghost predicate AllForwardedInTime(w: World, start: nat, delay: nat, n: Net) {
    forall x :: 0 <= x < |n.forwards| ==> ForwardedInTime(w, start, delay, n, n.forwards[x])
  }

  ghost predicate Punctual(w: World, start: nat, delay: nat, n: Net) {
    AllInTime(w, start, delay, n.asks) && AllForwardedInTime(w, start, delay, n)
  }

  /** A leg begun `delay` after it was sent may ask that much longer than the leg that sent it. */
  lemma LaterLegInTime(w: World, start: nat, delay: nat, now: nat, a: Activation, env: Env)
    requires env.Reaches() && a.budget.time.Some? && Below(w, a) > 0 && SentInTime(w, start, delay, a)
    requires now <= a.at + delay
    ensures RoundOf(a.budget, env, now).deadline <= Due(w, start, delay, Below(w, a))
    ensures now < Due(w, start, delay, Below(w, a))
  {
    DueOneMore(w, start, delay, Below(w, a) - 1);
  }

  lemma FirstLegInTime(w: World, start: nat, a: Activation, env: Env)
    requires env.Reaches() && a.budget == w.first && env.Bounds() == w.config && w.Valid()
    requires env.Honours(a.budget, a.from, Some(a.to))
    ensures RoundOf(a.budget, env, start).deadline == start + Allotted(w)
  {
  }

  /** A node that forwards has a hop to spend. */
  lemma HopsToSpend(w: World, a: Activation, env: Env)
    requires env.Reaches() && env.Bounds() == w.config && env.Honours(a.budget, a.from, Some(a.to))
    ensures a.budget.hops.Some? && a.Depth() < w.config.hopCap
  {
  }

  /** A leg that begins in time has a deadline in time, and its claim came in time. */
  lemma LegBeginsInTime(w: World, start: nat, delay: nat, n: Net, e: Event)
    requires Inv(w, n) && Punctual(w, start, delay, n) && Enabled(w, n, e) && OnTime(n, e, delay)
    requires e.Deliver? && e.env.Reaches() && n.now >= start
    ensures var a := n.asks[e.i];
      && AsksInTime(w, start, delay, a.(status := StatusAfter(n, e.i, e.env, e.granted)))
      && ClaimedInTime(w, start, delay, n.now)
  {
    var a := n.asks[e.i];
    assert WellSent(w, n.asks, e.i) && InTime(w, start, delay, n.asks, e.i);
    HopsToSpend(w, a, e.env);
    if e.i > 0 {
      assert forall j :: 0 <= j < |n.asks| ==> WellSent(w, n.asks, j);
      OnlyTheFirstIsFirst(w, n.asks, e.i);
      LaterLegInTime(w, start, delay, n.now, a, e.env);
      DueGrows(w, start, delay, Below(w, a), SaturatingSub(w.HopsLeft(), 1));
    } else {
      FirstLegInTime(w, n.now, a, e.env);
    }
  }

  lemma Retimed(w: World, start: nat, delay: nat, asks: seq<Activation>, i: nat, status: Status)
    requires i < |asks| && AllInTime(w, start, delay, asks) && AsksInTime(w, start, delay, asks[i].(status := status))
    ensures AllInTime(w, start, delay, asks[i := asks[i].(status := status)])
  {
    var b := asks[i := asks[i].(status := status)];
    forall j | 0 <= j < |b| ensures InTime(w, start, delay, b, j) { assert InTime(w, start, delay, asks, j); }
  }

  lemma SentOn(w: World, start: nat, delay: nat, asks: seq<Activation>, child: Activation)
    requires asks != [] && AllInTime(w, start, delay, asks) && child.status.Pending?
      && SentInTime(w, start, delay, child)
    ensures AllInTime(w, start, delay, asks + [child])
  {
    var b := asks + [child];
    forall j | 0 <= j < |b| ensures InTime(w, start, delay, b, j) {
      if j < |asks| { assert InTime(w, start, delay, asks, j); }
    }
  }

  /** Claims once made stay as they are. */
  lemma StillForwardedInTime(w: World, start: nat, delay: nat, n: Net, b: Net, x: nat)
    requires AllForwardedInTime(w, start, delay, n) && x < |n.forwards| && x < |b.forwards|
      && b.forwards[x] == n.forwards[x]
    requires forall node :: n.HistoryOf(node).run <= b.HistoryOf(node).run
    ensures ForwardedInTime(w, start, delay, b, b.forwards[x])
  {
    assert ForwardedInTime(w, start, delay, n, n.forwards[x]);
    assert n.HistoryOf(n.forwards[x].node).run <= b.HistoryOf(n.forwards[x].node).run;
  }

  lemma HistoriesGrow(w: World, n: Net, e: Event, node: Node)
    requires Enabled(w, n, e)
    ensures n.HistoryOf(node).run <= Next(w, n, e).HistoryOf(node).run
  {
  }

  /** A forwarding an event adds stands on the claim it made. */
  lemma NewForwardingIsInTime(w: World, start: nat, delay: nat, n: Net, e: Event)
    requires Enabled(w, n, e) && |Next(w, n, e).forwards| > |n.forwards| && ClaimedInTime(w, start, delay, n.now)
    ensures var b := Next(w, n, e);
      |b.forwards| == |n.forwards| + 1 && ForwardedInTime(w, start, delay, b, b.forwards[|n.forwards|])
  {
  }

  lemma ForwardsStayInTime(w: World, start: nat, delay: nat, n: Net, e: Event)
    requires AllForwardedInTime(w, start, delay, n) && Enabled(w, n, e)
    requires |Next(w, n, e).forwards| > |n.forwards| ==> ClaimedInTime(w, start, delay, n.now)
    ensures AllForwardedInTime(w, start, delay, Next(w, n, e))
  {
    var b := Next(w, n, e);
    forall node ensures n.HistoryOf(node).run <= b.HistoryOf(node).run { HistoriesGrow(w, n, e, node); }
    forall x | 0 <= x < |b.forwards| ensures ForwardedInTime(w, start, delay, b, b.forwards[x]) {
      if x < |n.forwards| {
        StillForwardedInTime(w, start, delay, n, b, x);
      } else {
        NewForwardingIsInTime(w, start, delay, n, e);
      }
    }
  }

  lemma DeliverKeepsPunctual(w: World, start: nat, delay: nat, n: Net, e: Event)
    requires Inv(w, n) && n.now >= start && Punctual(w, start, delay, n) && Enabled(w, n, e)
    requires e.Deliver? && OnTime(n, e, delay)
    ensures Punctual(w, start, delay, Next(w, n, e))
  {
    if e.env.Reaches() { LegBeginsInTime(w, start, delay, n, e); }
    Retimed(w, start, delay, n.asks, e.i, StatusAfter(n, e.i, e.env, e.granted));
    ForwardsStayInTime(w, start, delay, n, e);
  }

  /** What the asked peer reads: when it was sent, how deep it is, and no more time than it was granted. */
  lemma SentReads(a: Activation, i: nat, ask: Ask)
    requires ask.depth <= U64_MAX
    ensures var child := Sent(a, i, ask);
      child.at == ask.at && child.Depth() == ask.depth && Allowance(child.budget) <= ask.grant
  {
    var ms := Min(ask.grant / NANOS_PER_MILLI, U64_MAX);
    assert ms * NANOS_PER_MILLI <= ask.grant;
  }

  /** What is sent before a deadline is sent in time. */
  lemma SendsInTime(w: World, start: nat, delay: nat, a: Activation, i: nat, ask: Ask)
    requires a.status.Working? && AsksInTime(w, start, delay, a) && a.Depth() >= w.first.Used()
    requires ask.depth == a.Depth() + 1 <= U64_MAX
    requires ask.at < a.status.round.deadline && ask.grant == a.status.round.deadline - ask.at
    ensures SentInTime(w, start, delay, Sent(a, i, ask))
  {
    SentReads(a, i, ask);
  }

  /** One look asks at most once, now, for what is left of the round. */
  lemma LookAsks(n: Net, left: seq<Node>, round: Round)
    requires left != [] && Look(n, left, round).asks != []
    ensures var asks := Look(n, left, round).asks;
      && asks == [asks[0]] && asks[0].depth == round.depth && asks[0].at == n.now < round.deadline
      && asks[0].grant == round.deadline - n.now
  {
  }

  lemma AskKeepsPunctual(w: World, start: nat, delay: nat, n: Net, e: Event)
    requires Inv(w, n) && Punctual(w, start, delay, n) && Enabled(w, n, e) && e.AskOnward?
    ensures Punctual(w, start, delay, Next(w, n, e))
  {
    var a := n.asks[e.i];
    var p := Look(n, a.status.left, a.status.round);
    var replaced := n.asks[e.i := a.(status := Rest(p, a.status))];
    assert InTime(w, start, delay, n.asks, e.i);
    Retimed(w, start, delay, n.asks, e.i, Rest(p, a.status));
    if p.asks == [] {
      assert replaced + [] == replaced;
    } else {
      assert WellSent(w, n.asks, e.i) && WellWorking(w, n.now, a);
      LookAsks(n, a.status.left, a.status.round);
      SendsInTime(w, start, delay, a, e.i, p.asks[0]);
      SentOn(w, start, delay, replaced, Sent(a, e.i, p.asks[0]));
    }
    ForwardsStayInTime(w, start, delay, n, e);
  }

  lemma OthersKeepPunctual(w: World, start: nat, delay: nat, n: Net, e: Event)
    requires Punctual(w, start, delay, n) && Enabled(w, n, e) && !e.Deliver? && !e.AskOnward?
    ensures Punctual(w, start, delay, Next(w, n, e))
  {
    if e.Return? { Retimed(w, start, delay, n.asks, e.i, Done); }
    ForwardsStayInTime(w, start, delay, n, e);
  }

  lemma {:induction false} EveryRunIsPunctual(w: World, start: nat, events: seq<Event>, delay: nat)
    requires w.Valid() && Reached(w, start, events).Some? && Prompt(w, start, events, delay)
    ensures Punctual(w, start, delay, Reached(w, start, events).value)
  {
    if events == [] {
    } else {
      var n, e := Reached(w, start, events[..|events| - 1]).value, events[|events| - 1];
      EveryRunIsPunctual(w, start, events[..|events| - 1], delay);
      EveryRunKeepsInv(w, start, events[..|events| - 1]);
      EveryRunIsWalked(w, start, events[..|events| - 1]);
      if e.Deliver? {
        DeliverKeepsPunctual(w, start, delay, n, e);
      } else if e.AskOnward? {
        AskKeepsPunctual(w, start, delay, n, e);
      } else {
        OthersKeepPunctual(w, start, delay, n, e);
      }
    }
  }

  // ---------------------------------------------------------------------------------------------
  // Whether a lifetime suffices
  // ---------------------------------------------------------------------------------------------

  /** The longest the forwardings of a question can spread: what the first leg was given, and one delay for each hop
    * that may forward below it. */
  function Spread(w: World, delay: nat): nat { Allotted(w) + SaturatingSub(w.HopsLeft(), 1) * delay }

  /** In every run in which no message and search before a leg takes more than `delay`: all the claims the question is
    * forwarded on lie within what the first leg was given and one delay for each hop that may forward below it. */
  lemma ForwardingsLieWithin(w: World, start: nat, events: seq<Event>, delay: nat, x: nat)
    requires w.Valid() && Reached(w, start, events).Some? && Prompt(w, start, events, delay)
    requires x < |Reached(w, start, events).value.forwards|
    ensures var n := Reached(w, start, events).value;
      var claimed := ClaimedAt(n, n.forwards[x]);
      start <= claimed && (claimed == start || claimed < start + Spread(w, delay))
  {
    EveryRunIsPunctual(w, start, events, delay);
    EveryRunIsWalked(w, start, events);
    var n := Reached(w, start, events).value;
    assert ForwardedInTime(w, start, delay, n, n.forwards[x]);
    assert Kept(n.HistoryOf(n.forwards[x].node), start, n.now);
  }

  /** When that is within the lifetime of a claim, remembering a question for a lifetime is enough: each node whose
    * seen-set is not filled over forwards it at most once, however many paths lead to it and however long the run. */
  lemma ALifetimeSuffices(w: World, start: nat, events: seq<Event>, delay: nat)
    requires w.Valid() && Reached(w, start, events).Some? && Prompt(w, start, events, delay)
    requires Spread(w, delay) <= MAX_FORWARDED_ASK_BUDGET
    ensures ForwardsOnceUnlessOverfilled(Reached(w, start, events).value)
  {
    var n := Reached(w, start, events).value;
    forall x, y | 0 <= x < y < |n.forwards| && n.forwards[x].node == n.forwards[y].node
      ensures Overfilled(n, n.forwards[x].node)
    {
      ForwardedTwiceOnlyWhenForgotten(w, start, events, x, y);
      ForwardingsLieWithin(w, start, events, delay, x);
      ForwardingsLieWithin(w, start, events, delay, y);
      var run := n.HistoryOf(n.forwards[x].node).run;
      GrantsAddUp(run, n.forwards[y].claim, |run|, run[n.forwards[x].claim].now);
    }
  }
}
