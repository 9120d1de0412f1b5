/** How often one node forwards the same question.
  *
  * With two hops to go no node is asked twice on a way that lets it forward twice, whatever the seen-sets do; with
  * more, a node may be reached again, and it is the seen-set that turns the question away. */
module AskOnce {
  import opened Common
  import opened HolderCache
  import opened HopBudget
  import opened ForwardedAsk
  import opened AskNetwork

  /** What the first node's leg is given. */
  function Allotted(w: World): nat { w.first.TimeBudget(SaturatingSub(w.HopsLeft(), 1), w.config.fanOut) }

  /** A question some node may be reached by twice with a hop left to spend: it travels far enough for two ways to
    * meet - or, one peer at a time, for one way to close on itself - and there is somebody to ask and time to ask. */
  predicate CanComeBack(w: World) {
    && w.config.enabled && Allotted(w) > 0
    && (w.HopsLeft() >= 4 || (w.HopsLeft() == 3 && w.config.fanOut >= 2)) && w.config.fanOut >= 1
  }

  // ---------------------------------------------------------------------------------------------
  // Who asks whom
  // ---------------------------------------------------------------------------------------------

  /** Two asks of one leg go to different nodes. */
  ghost predicate Apart(asks: seq<Activation>, i: nat, j: nat)
    requires i < |asks| && j < |asks|
  {
    0 < i < j && asks[i].parent == asks[j].parent ==> asks[i].to != asks[j].to
  }

  /** A leg asks nobody before it begins, and nobody it has asked already. */
  ghost predicate AsksOnce(asks: seq<Activation>, i: nat)
    requires i < |asks|
  {
    && (asks[i].status.Working? ==> Distinct(asks[i].status.left))
    && forall j :: 0 < j < |asks| && asks[j].parent == i ==>
      !asks[i].status.Pending? && (asks[i].status.Working? ==> asks[j].to !in asks[i].status.left)
  }

  ghost predicate AllApart(asks: seq<Activation>) {
    && (forall i, j :: 0 <= i < |asks| && 0 <= j < |asks| ==> Apart(asks, i, j))
    && (forall i :: 0 <= i < |asks| ==> AsksOnce(asks, i))
  }

  /** Each forwarding is an arrival's own: it was made in handling it, with hops left. */
  ghost predicate Owned(w: World, n: Net, f: Forwarding) {
    && f.arrival < |n.asks| && n.asks[f.arrival].to == f.node && !n.asks[f.arrival].status.Pending?
    && n.asks[f.arrival].Depth() < w.config.hopCap && w.config.enabled
  }

  ghost predicate AllOwned(w: World, n: Net) {
    && (forall x :: 0 <= x < |n.forwards| ==> Owned(w, n, n.forwards[x]))
    && (forall x, y :: 0 <= x < y < |n.forwards| ==> n.forwards[x].arrival != n.forwards[y].arrival)
  }

  lemma RestatusApart(asks: seq<Activation>, i: nat, status: Status)
    requires i < |asks| && AllApart(asks) && !status.Pending?
    requires status.Working? ==> Distinct(status.left)
    requires asks[i].status.Pending? || status.Done? ||
      (asks[i].status.Working? && forall p :: p in status.left ==> p in asks[i].status.left)
    ensures AllApart(asks[i := asks[i].(status := status)])
  {
    var b := asks[i := asks[i].(status := status)];
    forall j, k | 0 <= j < |b| && 0 <= k < |b| ensures Apart(b, j, k) { assert Apart(asks, j, k); }
    forall j | 0 <= j < |b| ensures AsksOnce(b, j) { assert AsksOnce(asks, j); }
  }

  lemma SendApart(asks: seq<Activation>, i: nat, child: Activation)
    requires i < |asks| && AllApart(asks) && child.parent == i && child.status.Pending?
    requires asks[i].status.Working? && child.to !in asks[i].status.left
    requires forall j :: 0 < j < |asks| && asks[j].parent == i ==> asks[j].to != child.to
    requires forall j :: 0 < j < |asks| ==> asks[j].parent < |asks|
    ensures AllApart(asks + [child])
  {
    var b := asks + [child];
    forall j, k | 0 <= j < |b| && 0 <= k < |b| ensures Apart(b, j, k) {
      if j < |asks| && k < |asks| { assert Apart(asks, j, k); }
    }
    forall j | 0 <= j < |b| ensures AsksOnce(b, j) {
      if j < |asks| { assert AsksOnce(asks, j); }
    }
  }

  lemma RestKeepsDistinct(left: seq<Node>)
    requires left != [] && Distinct(left)
    ensures Distinct(left[1..]) && left[0] !in left[1..] && forall p :: p in left[1..] ==> p in left
  {
  }

  lemma AskKeepsApart(w: World, n: Net, i: nat)
    requires Inv(w, n) && AllApart(n.asks) && Enabled(w, n, AskOnward(i))
    ensures AllApart(Next(w, n, AskOnward(i)).asks)
  {
    var a := n.asks[i];
    var p := Look(n, a.status.left, a.status.round);
    var replaced := n.asks[i := a.(status := Rest(p, a.status))];
    assert AsksOnce(n.asks, i);
    RestKeepsDistinct(a.status.left);
    RestatusApart(n.asks, i, Rest(p, a.status));
    if p.asks == [] {
      assert replaced + [] == replaced;
    } else {
      assert p.asks == [p.asks[0]] && p.asks[0].peer == a.status.left[0];
      forall j | 0 < j < |replaced| ensures replaced[j].parent < |replaced| { assert WellSent(w, n.asks, j); }
      SendApart(replaced, i, Sent(a, i, p.asks[0]));
    }
  }

  lemma StepKeepsApart(w: World, n: Net, e: Event)
    requires Inv(w, n) && AllApart(n.asks) && Enabled(w, n, e)
    ensures AllApart(Next(w, n, e).asks)
  {
    match e {
      case Deliver(i, env, granted, _) => RestatusApart(n.asks, i, StatusAfter(n, i, env, granted));
      case AskOnward(i) => AskKeepsApart(w, n, i);
      case Return(i) => RestatusApart(n.asks, i, Done);
      case Elsewhere(_, _, _) =>
      case OtherLeg(_, _) =>
      case Wait(_) =>
    }
  }

  /** Arrivals stay what they are once handled. */
  lemma StillOwned(w: World, n: Net, b: Net, f: Forwarding)
    requires Owned(w, n, f) && |b.asks| >= |n.asks|
    requires b.asks[f.arrival] == n.asks[f.arrival].(status := b.asks[f.arrival].status)
      && !b.asks[f.arrival].status.Pending?
    ensures Owned(w, b, f)
  {
  }

  /** No step turns a handled arrival into another, or back into one to be handled. */
  lemma HandledStays(w: World, n: Net, e: Event, i: nat)
    requires Enabled(w, n, e) && i < |n.asks| && !n.asks[i].status.Pending?
    ensures var b := Next(w, n, e);
      |b.asks| >= |n.asks| && b.asks[i] == n.asks[i].(status := b.asks[i].status) && !b.asks[i].status.Pending?
  {
  }

  /** A forwarding a step adds is the arrival's it handles. */
  lemma NewForwardingIsOwned(w: World, n: Net, e: Event)
    requires Inv(w, n) && Enabled(w, n, e) && |Next(w, n, e).forwards| > |n.forwards|
    ensures var b := Next(w, n, e);
      && e.Deliver? && n.asks[e.i].status.Pending? && b.forwards == n.forwards + [b.forwards[|n.forwards|]]
      && b.forwards[|n.forwards|].arrival == e.i && Owned(w, b, b.forwards[|n.forwards|])
  {
    assert WellSent(w, n.asks, e.i);
    OneHopFurther(n.asks[e.i].budget, w.config.hopCap, 0, 0);
  }

  lemma ForwardsOnlyGrow(w: World, n: Net, e: Event)
    requires Enabled(w, n, e)
    ensures n.forwards <= Next(w, n, e).forwards
  {
  }

  lemma StepKeepsOwned(w: World, n: Net, e: Event)
    requires Inv(w, n) && AllOwned(w, n) && Enabled(w, n, e)
    ensures AllOwned(w, Next(w, n, e))
  {
    var b := Next(w, n, e);
    ForwardsOnlyGrow(w, n, e);
    forall x | 0 <= x < |n.forwards| ensures Owned(w, b, n.forwards[x]) {
      assert Owned(w, n, n.forwards[x]);
      HandledStays(w, n, e, n.forwards[x].arrival);
      StillOwned(w, n, b, n.forwards[x]);
    }
    if |b.forwards| > |n.forwards| {
      NewForwardingIsOwned(w, n, e);
      forall x | 0 <= x < |n.forwards| ensures n.forwards[x].arrival != e.i { assert Owned(w, n, n.forwards[x]); }
    }
  }

  lemma {:induction false} EveryRunIsApart(w: World, start: nat, events: seq<Event>)
    requires w.Valid() && Reached(w, start, events).Some?
    ensures AllApart(Reached(w, start, events).value.asks) && AllOwned(w, Reached(w, start, events).value)
  {
    if events == [] {
    } else {
      var n, e := Reached(w, start, events[..|events| - 1]).value, events[|events| - 1];
      EveryRunIsApart(w, start, events[..|events| - 1]);
      EveryRunKeepsInv(w, start, events[..|events| - 1]);
      StepKeepsApart(w, n, e);
      StepKeepsOwned(w, n, e);
    }
  }

  // ---------------------------------------------------------------------------------------------
  // Questions no node forwards twice
  // ---------------------------------------------------------------------------------------------

  /** Only the first arrival is at the first depth. */
  lemma OnlyTheFirstIsFirst(w: World, asks: seq<Activation>, i: nat)
    requires i < |asks| && forall j :: 0 <= j < |asks| ==> WellSent(w, asks, j)
    ensures i > 0 ==> asks[i].Depth() > w.first.Used() && asks[i].parent < i
  {
    assert WellSent(w, asks, i);
    if i > 0 { assert WellSent(w, asks, asks[i].parent); }
  }

  /** Within two hops of the first node, no node that still has a hop to spend is reached twice. */
  lemma NearbyNodesDiffer(w: World, now: nat, asks: seq<Activation>, i: nat, j: nat)
    requires Shaped(w, now, asks) && AllApart(asks) && i < j < |asks|
    requires asks[i].Depth() <= w.first.Used() + 1 && asks[j].Depth() <= w.first.Used() + 1
    ensures asks[i].to != asks[j].to
  {
    assert WellSent(w, asks, i) && WellSent(w, asks, j);
    assert forall k :: 0 <= k < |asks| ==> WellSent(w, asks, k);
    OnlyTheFirstIsFirst(w, asks, j);
    OnlyTheFirstIsFirst(w, asks, asks[j].parent);
    if i > 0 {
      OnlyTheFirstIsFirst(w, asks, i);
      OnlyTheFirstIsFirst(w, asks, asks[i].parent);
      assert Apart(asks, i, j);
    }
  }

  lemma {:induction false} TwoAreCounted(asks: seq<Activation>, d: nat, i: nat, j: nat)
    requires i < j < |asks| && asks[i].Depth() == d == asks[j].Depth()
    ensures CountAt(asks, d) >= 2
  {
    if j == |asks| - 1 {
      OneIsCounted(asks[..j], d, i);
    } else {
      TwoAreCounted(asks[..|asks| - 1], d, i, j);
    }
  }

  lemma {:induction false} OneIsCounted(asks: seq<Activation>, d: nat, i: nat)
    requires i < |asks| && asks[i].Depth() == d
    ensures CountAt(asks, d) >= 1
  {
    if i == |asks| - 1 {
    } else {
      OneIsCounted(asks[..|asks| - 1], d, i);
    }
  }

  lemma {:induction false} PowersOfOne(k: nat)
    ensures Pow(1, k) == 1
  {
    if k == 0 {
    } else {
      PowersOfOne(k - 1);
    }
  }

  lemma {:induction false} NobodyIsRecruited(k: nat)
    ensures Recruits(0, k) == 0
  {
    if k == 0 {
    } else {
      NobodyIsRecruited(k - 1);
    }
  }

  /** Asked one at a time, the question is one way, and within three hops that way cannot close. */
  lemma OneWayDiffers(w: World, now: nat, asks: seq<Activation>, i: nat, j: nat)
    requires Counted(w, asks) && Shaped(w, now, asks) && w.config.fanOut == 1 && i < j < |asks|
    requires asks[i].Depth() <= w.first.Used() + 2 && asks[j].Depth() <= w.first.Used() + 2
    ensures asks[i].to != asks[j].to
  {
    assert forall k :: 0 <= k < |asks| ==> WellSent(w, asks, k);
    var p := asks[j].parent;
    assert WellSent(w, asks, i) && WellSent(w, asks, j);
    OnlyTheFirstIsFirst(w, asks, j);
    assert WellSent(w, asks, p);
    OnlyTheFirstIsFirst(w, asks, i);
    OnlyTheFirstIsFirst(w, asks, p);
    if asks[p].Depth() > w.first.Used() {
      OnlyTheFirstIsFirst(w, asks, asks[p].parent);
      assert asks[p].parent == 0;
    }
    if i > 0 {
      assert WellSent(w, asks, asks[i].parent);
      OnlyTheFirstIsFirst(w, asks, asks[i].parent);
      if asks[i].Depth() == asks[j].Depth() {
        AtMostOneAtADepth(w, asks, i, j);
      } else if asks[i].Depth() < asks[j].Depth() {
        AtMostOneAtADepth(w, asks, i, p);
      } else {
        AtMostOneAtADepth(w, asks, asks[i].parent, j);
      }
    }
  }

  lemma AtMostOneAtADepth(w: World, asks: seq<Activation>, i: nat, j: nat)
    requires Counted(w, asks) && w.config.fanOut == 1 && i < |asks| && j < |asks|
    requires asks[i].Depth() == asks[j].Depth() >= w.first.Used()
    ensures i == j
  {
    var k := asks[i].Depth() - w.first.Used();
    PaidMeansPowers(w, asks, k);
    PowersOfOne(k);
    if i < j {
      TwoAreCounted(asks, asks[i].Depth(), i, j);
    } else if j < i {
      TwoAreCounted(asks, asks[i].Depth(), j, i);
    }
  }

  /** With no time to ask, nobody is asked. */
  ghost predicate Timeless(n: Net) {
    |n.asks| == 1 && (n.asks[0].status.Working? ==> n.asks[0].status.round.deadline <= n.now)
  }

  lemma LegHasNoTime(w: World, n: Net, env: Env)
    requires Inv(w, n) && n.asks[0].budget == w.first && Allotted(w) == 0 && env.Bounds() == w.config && env.Reaches()
    requires env.Honours(n.asks[0].budget, n.asks[0].from, Some(n.asks[0].to))
    ensures RoundOf(n.asks[0].budget, env, n.now).deadline == n.now
  {
  }

  lemma LookAsksNobody(n: Net, left: seq<Node>, round: Round)
    requires left != [] && round.deadline <= n.now
    ensures Look(n, left, round).asks == []
  {
  }

  lemma StepKeepsTimeless(w: World, n: Net, e: Event)
    requires Inv(w, n) && Timeless(n) && Allotted(w) == 0 && Enabled(w, n, e)
    ensures Timeless(Next(w, n, e))
  {
    assert WellSent(w, n.asks, 0);
    match e {
      case Deliver(_, env, _, _) => if env.Reaches() { LegHasNoTime(w, n, env); }
      case AskOnward(_) => LookAsksNobody(n, n.asks[0].status.left, n.asks[0].status.round);
      case Return(_) =>
      case Elsewhere(_, _, _) =>
      case OtherLeg(_, _) =>
      case Wait(_) =>
    }
  }

  lemma {:induction false} EveryRunIsTimeless(w: World, start: nat, events: seq<Event>)
    requires w.Valid() && Reached(w, start, events).Some? && Allotted(w) == 0
    ensures Timeless(Reached(w, start, events).value)
  {
    if events == [] {
    } else {
      var n, e := Reached(w, start, events[..|events| - 1]).value, events[|events| - 1];
      EveryRunIsTimeless(w, start, events[..|events| - 1]);
      EveryRunKeepsInv(w, start, events[..|events| - 1]);
      StepKeepsTimeless(w, n, e);
    }
  }

  /** No node forwards the question twice. */
  predicate ForwardsApart(n: Net) {
    forall x, y :: 0 <= x < y < |n.forwards| ==> n.forwards[x].node != n.forwards[y].node
  }

  lemma ArrivalsDiffer(w: World, start: nat, events: seq<Event>, i: nat, j: nat)
    requires w.Valid() && Reached(w, start, events).Some? && !CanComeBack(w) && w.config.enabled
    requires var asks := Reached(w, start, events).value.asks;
      i < j < |asks| && asks[i].Depth() < w.config.hopCap && asks[j].Depth() < w.config.hopCap
    ensures var asks := Reached(w, start, events).value.asks; asks[i].to != asks[j].to
  {
    var n := Reached(w, start, events).value;
    EveryRunKeepsInv(w, start, events);
    EveryRunIsApart(w, start, events);
    if w.HopsLeft() <= 2 {
      NearbyNodesDiffer(w, n.now, n.asks, i, j);
    } else if Allotted(w) == 0 {
      EveryRunIsTimeless(w, start, events);
    } else if w.config.fanOut == 0 {
      QuestionsAreBounded(w, start, events, 0);
      NobodyIsRecruited(w.HopsLeft());
    } else {
      OneWayDiffers(w, n.now, n.asks, i, j);
    }
  }

  /** A question that cannot come back is forwarded at most once by each node, in every run: however late messages are,
    * however long the run, and whatever the seen-sets have forgotten. */
  lemma EachNodeForwardsOnce(w: World, start: nat, events: seq<Event>)
    requires w.Valid() && Reached(w, start, events).Some? && !CanComeBack(w)
    ensures ForwardsApart(Reached(w, start, events).value)
  {
    var n := Reached(w, start, events).value;
    EveryRunIsApart(w, start, events);
    forall x, y | 0 <= x < y < |n.forwards| ensures n.forwards[x].node != n.forwards[y].node {
      assert Owned(w, n, n.forwards[x]) && Owned(w, n, n.forwards[y]);
      var i, j := n.forwards[x].arrival, n.forwards[y].arrival;
      if i < j {
        ArrivalsDiffer(w, start, events, i, j);
      } else {
        ArrivalsDiffer(w, start, events, j, i);
      }
    }
  }

  /** The bounds every node running this code has: two hops. */
  lemma OnceAtTheDefaults(w: World, start: nat, events: seq<Event>)
    requires w.Valid() && w.config.hopCap == 2 && Reached(w, start, events).Some?
    ensures ForwardsApart(Reached(w, start, events).value)
  {
    EachNodeForwardsOnce(w, start, events);
  }

  // ---------------------------------------------------------------------------------------------
  // Questions that may come back
  // ---------------------------------------------------------------------------------------------

  lemma {:induction false} GrantsAddUp(run: seq<Claim>, j: nat, k: nat, t: nat)
    requires j <= k <= |run|
    ensures GrantedSince(run, j, t) <= GrantedSince(run, k, 0)
    decreases k
  {
    if k == 0 {
    } else {
      GrantsAddUp(run, if j == k then j - 1 else j, k - 1, t);
    }
  }

  /** A node whose seen-set has granted more asks than it can hold. */
  ghost predicate Overfilled(n: Net, node: Node) {
    var run := n.HistoryOf(node).run;
    GrantedSince(run, |run|, 0) > ASK_SEEN_CAPACITY
  }

  /** No node forwards the question twice, unless its seen-set has been filled over. */
  ghost predicate ForwardsOnceUnlessOverfilled(n: Net) {
    forall x, y :: 0 <= x < y < |n.forwards| && n.forwards[x].node == n.forwards[y].node ==>
      Overfilled(n, n.forwards[x].node)
  }

  /** In every run of every question: a node forwards it twice only if it can come back at all, and then only once the
    * run has outlasted the ceiling on any one ask, or the node's seen-set has been filled over. */
  lemma EachNodeForwardsAtMostOnce(w: World, start: nat, events: seq<Event>, x: nat, y: nat)
    requires w.Valid() && Reached(w, start, events).Some?
    requires x < y < |Reached(w, start, events).value.forwards|
    requires Reached(w, start, events).value.forwards[x].node == Reached(w, start, events).value.forwards[y].node
    ensures var n := Reached(w, start, events).value;
      CanComeBack(w) && (n.now >= start + MAX_FORWARDED_ASK_BUDGET || Overfilled(n, n.forwards[x].node))
  {
    EveryRunIsWalked(w, start, events);
    var n := Reached(w, start, events).value;
    if !CanComeBack(w) { EachNodeForwardsOnce(w, start, events); }
    ForwardedTwiceOnlyWhenForgotten(w, start, events, x, y);
    var run := n.HistoryOf(n.forwards[x].node).run;
    assert Kept(n.HistoryOf(n.forwards[x].node), start, n.now);
    GrantsAddUp(run, n.forwards[y].claim, |run|, run[n.forwards[x].claim].now);
  }

  /** A question arriving again at a node that has forwarded it, and not been let to since. The seen-set lets it
    * through when its lifetime has ended or a capacity of others has displaced it, and for no less - exactly then, if
    * nothing else was granted at the instant of that claim; and then it is forwarded again exactly when the node has a
    * slot left. */
  lemma ForwardsAgainWhenForgotten(w: World, start: nat, events: seq<Event>, e: Event, x: nat)
    requires w.Valid() && Reached(w, start, events).Some? && Enabled(w, Reached(w, start, events).value, e)
    requires e.Deliver? && e.env.Reaches() && x < |Reached(w, start, events).value.forwards|
    requires var n := Reached(w, start, events).value;
      n.forwards[x].node == n.asks[e.i].to && LastGranted(n.HistoryOf(n.forwards[x].node).run, n.forwards[x].claim)
    ensures var n, b := Reached(w, start, events).value, Next(w, Reached(w, start, events).value, e);
      var node, run := n.forwards[x].node, n.HistoryOf(n.forwards[x].node).run;
      var last := run[n.forwards[x].claim].now;
      && (n.now - last >= MAX_FORWARDED_ASK_BUDGET || GrantedAfter(run, |run|, last) >= ASK_SEEN_CAPACITY ==> e.granted)
      && (e.granted ==>
            n.now - last >= MAX_FORWARDED_ASK_BUDGET || GrantedSince(run, |run|, last) >= ASK_SEEN_CAPACITY + 1)
      && (AloneAtItsInstant(run, n.forwards[x].claim, |run|) ==>
            (e.granted <==>
             n.now - last >= MAX_FORWARDED_ASK_BUDGET || GrantedAfter(run, |run|, last) >= ASK_SEEN_CAPACITY))
      && (b.forwards == n.forwards + [Forwarding(node, |run|, e.i)]
          <==> e.granted && n.Held(node) < MAX_CONCURRENT_FORWARDED_ASKS)
      && (!(e.granted && n.Held(node) < MAX_CONCURRENT_FORWARDED_ASKS) ==> b.forwards == n.forwards)
  {
    var n := Reached(w, start, events).value;
    var node := n.forwards[x].node;
    EveryRunIsWalked(w, start, events);
    EveryRunKeepsInv(w, start, events);
    assert Backed(w, n, n.forwards[x]) && WellSent(w, n.asks, e.i) && Kept(n.HistoryOf(node), start, n.now);
    RegrantedExactlyWhen(n.HistoryOf(node), start, n.now, QuestionOf(w, n.asks[e.i]), e.granted, e.seen,
                         n.forwards[x].claim);
  }

  /** Nothing has granted this claim's question again. */
  ghost predicate LastGranted(run: seq<Claim>, i: nat) { i < |run| && NotRegranted(run, i, |run|) }

  lemma RegrantedExactlyWhen(h: History, start: nat, now: nat, q: Question, granted: bool, seen: Seen, i: nat)
    requires Kept(h, start, now) && start <= now && Claims(h, Claim(q, now, granted), seen)
    requires LastGranted(h.run, i) && h.run[i].granted && h.run[i].question == q
    ensures now - h.run[i].now >= MAX_FORWARDED_ASK_BUDGET
      || GrantedAfter(h.run, |h.run|, h.run[i].now) >= ASK_SEEN_CAPACITY
      ==> granted
    ensures granted ==>
      now - h.run[i].now >= MAX_FORWARDED_ASK_BUDGET
        || GrantedSince(h.run, |h.run|, h.run[i].now) >= ASK_SEEN_CAPACITY + 1
    ensures AloneAtItsInstant(h.run, i, |h.run|) ==> (granted <==>
      now - h.run[i].now >= MAX_FORWARDED_ASK_BUDGET || GrantedAfter(h.run, |h.run|, h.run[i].now) >= ASK_SEEN_CAPACITY)
  {
    var g := Extended(h, Claim(q, now, granted), seen);
    var j, last := |h.run|, h.run[i].now;
    ClaimKeepsHistory(h, start, now, Claim(q, now, granted), seen);
    CountsOfPrefix(h.run, g.run, j, last);
    if granted { WalkedTwiceOnlyWhenForgotten(g.run, g.states, MAX_FORWARDED_ASK_BUDGET, ASK_SEEN_CAPACITY, i, j); }
    if now - last >= MAX_FORWARDED_ASK_BUDGET || GrantedAfter(h.run, j, last) >= ASK_SEEN_CAPACITY {
      ForgottenIsGrantedAgain(g.run, g.states, MAX_FORWARDED_ASK_BUDGET, ASK_SEEN_CAPACITY, i, j);
    }
    if AloneAtItsInstant(h.run, i, j) {
      WalkedAgainExactlyWhen(g.run, g.states, MAX_FORWARDED_ASK_BUDGET, ASK_SEEN_CAPACITY, i, j);
    }
  }

  lemma {:induction false} CountsOfPrefix(run: seq<Claim>, longer: seq<Claim>, k: nat, t: nat)
    requires k <= |run| && run <= longer
    ensures GrantedSince(longer, k, t) == GrantedSince(run, k, t)
      && GrantedAfter(longer, k, t) == GrantedAfter(run, k, t)
  {
    if k == 0 {
    } else {
      CountsOfPrefix(run, longer, k - 1, t);
    }
  }
}
