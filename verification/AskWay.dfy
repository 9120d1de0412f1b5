/** Exactly when remembering a question for a lifetime keeps it from being forwarded twice.
  *
  * The bound of `AskClock` is met, to the nanosecond, by a question that takes every hop it has, each as late as its
  * time allows; this module builds that run. */
module AskWay {
  import opened Common
  import opened HolderCache
  import opened HopBudget
  import opened ForwardedAsk
  import opened AskNetwork
  import opened AskOnce
  import opened AskClock
  import AskTime

  // ---------------------------------------------------------------------------------------------
  // Steps of a run
  // ---------------------------------------------------------------------------------------------

  /** These events lead here, each node beginning its leg in time. */
  ghost predicate Promptly(w: World, start: nat, events: seq<Event>, delay: nat, n: Net) {
    Reached(w, start, events) == Some(n) && Prompt(w, start, events, delay)
  }

  lemma OneEventMore(w: World, start: nat, events: seq<Event>, n: Net, e: Event, delay: nat)
    requires Reached(w, start, events) == Some(n) && Enabled(w, n, e)
    requires Prompt(w, start, events, delay) && OnTime(n, e, delay)
    ensures Reached(w, start, events + [e]) == Some(Next(w, n, e)) && Prompt(w, start, events + [e], delay)
  {
    assert (events + [e])[..|events|] == events;
  }

  /** Networks among which is everything that can happen next, as long as each node begins its leg in time, and
    * nothing but what a run from `start` can lead to. */
  ghost predicate Closed(w: World, start: nat, delay: nat, reach: Net -> bool) {
    && (forall n, e :: reach(n) && Enabled(w, n, e) && OnTime(n, e, delay) ==> reach(Next(w, n, e)))
    && (forall n :: reach(n) ==> Walked(w, start, n))
  }

  /** A node that picks these peers, all of them connected. */
  function Picking(config: Config, peers: seq<Node>, hopsRemaining: nat): Env {
    var all := set p | p in peers;
    Env(true, Some(config), all, all, true, Forward(peers, hopsRemaining), true, p => Exchange(TimedOut, 0))
  }

  /** A history in which every grant of a question has outlived its lifetime grants it again. */
  lemma GrantedWhenLapsed(h: History, start: nat, now: nat, q: Question) returns (seen: Seen)
    requires Kept(h, start, now) && start <= now
    requires forall i :: 0 <= i < |h.run| && h.run[i].question == q ==> now - h.run[i].now >= MAX_FORWARDED_ASK_BUDGET
    ensures Claims(h, Claim(q, now, true), seen)
  {
    var granted, after := EveryClaimIsAnswered(h.states[|h.run|], q, now, MAX_FORWARDED_ASK_BUDGET, ASK_SEEN_CAPACITY);
    seen := after;
    if !granted {
      var g := Extended(h, Claim(q, now, granted), seen);
      ClaimKeepsHistory(h, start, now, Claim(q, now, granted), seen);
      RefusedOnlyAsADuplicate(g.run, g.states, MAX_FORWARDED_ASK_BUDGET, ASK_SEEN_CAPACITY, |h.run|);
    }
  }

  /** A node that none but the first few arrivals went to has no more legs than those. */
  lemma {:induction false} LegsAtMost(asks: seq<Activation>, node: Node, k: nat)
    requires forall i :: k <= i < |asks| ==> asks[i].to != node
    ensures LegsAt(asks, node) <= k
  {
    if asks == [] {
    } else if k == 0 {
      LegsAtMost(asks[..|asks| - 1], node, 0);
    } else {
      LegsAtMost(asks[..|asks| - 1], node, if |asks| <= k then k - 1 else k);
    }
  }

  /** An arrival may be handled by picking these peers. */
  ghost predicate CanHandle(w: World, n: Net, i: nat, peers: seq<Node>) {
    && i < |n.asks| && n.Held(n.asks[i].to) < MAX_CONCURRENT_FORWARDED_ASKS
    && n.asks[i].status.Pending? && n.asks[i].budget.hops.Some? && n.asks[i].Depth() < w.config.hopCap
    && w.Valid() && w.config.enabled && |peers| <= w.config.fanOut && Distinct(peers)
    && (forall p :: p in peers ==> Some(p) != n.asks[i].from && p != n.asks[i].to)
    && (forall c :: c in n.HistoryOf(n.asks[i].to).run ==> n.now - c.now >= MAX_FORWARDED_ASK_BUDGET)
  }

  /** The network after it. */
  ghost predicate Handled(w: World, n: Net, b: Net, i: nat, peers: seq<Node>)
    requires i < |n.asks| && n.asks[i].Depth() < w.config.hopCap
  {
    var a, hops := n.asks[i], w.config.hopCap - n.asks[i].Depth() - 1;
    && b.now == n.now && b.others == n.others
    && b.forwards == n.forwards + [Forwarding(a.to, |n.HistoryOf(a.to).run|, i)]
    && b.HistoryOf(a.to).run == n.HistoryOf(a.to).run + [Claim(QuestionOf(w, a), n.now, true)]
    && (forall node :: node != a.to ==> b.HistoryOf(node) == n.HistoryOf(node))
    && b.asks == n.asks[i := a.(status := Working(peers, RoundOf(a.budget, Picking(w.config, peers, hops), n.now)))]
  }

  /** What delivering the question to such a node does. */
  lemma DeliverHandles(w: World, n: Net, i: nat, peers: seq<Node>, seen: Seen) returns (e: Event)
    requires CanHandle(w, n, i, peers)
    requires Claims(n.HistoryOf(n.asks[i].to), Claim(QuestionOf(w, n.asks[i]), n.now, true), seen)
    ensures e.Deliver? && e.i == i && Enabled(w, n, e) && Handled(w, n, Next(w, n, e), i, peers)
  {
    e := Deliver(i, Picking(w.config, peers, w.config.hopCap - n.asks[i].Depth() - 1), true, seen);
  }

  lemma Handle(w: World, start: nat, reach: Net -> bool, n: Net, delay: nat, i: nat, peers: seq<Node>)
    returns (b: Net)
    requires w.Valid() && Closed(w, start, delay, reach) && reach(n)
    requires CanHandle(w, n, i, peers) && n.now - n.asks[i].at <= if i == 0 then 0 else delay
    ensures reach(b) && Handled(w, n, b, i, peers)
  {
    var a := n.asks[i];
    assert Kept(n.HistoryOf(a.to), start, n.now);
    var seen := GrantedWhenLapsed(n.HistoryOf(a.to), start, n.now, QuestionOf(w, a));
    var e := DeliverHandles(w, n, i, peers, seen);
    b := Next(w, n, e);
  }

  /** The network after a leg asked its next peer. */
  ghost predicate Asked(n: Net, b: Net, i: nat, peer: Node)
    requires i < |n.asks| && n.asks[i].status.Working? && n.asks[i].status.left != []
  {
    var a, r := n.asks[i], n.asks[i].status.round;
    b == n.(asks := n.asks[i := a.(status := Working(a.status.left[1..], r))]
                    + [Sent(a, i, Ask(peer, r.depth, SaturatingSub(r.deadline, n.now), r.askId, n.now))])
  }

  lemma AskNextPeer(w: World, start: nat, reach: Net -> bool, n: Net, delay: nat, i: nat)
    returns (b: Net)
    requires w.Valid() && Closed(w, start, delay, reach) && reach(n)
    requires i < |n.asks| && n.asks[i].status.Working? && n.asks[i].status.left != []
    requires n.asks[i].status.left[0] in n.asks[i].status.round.pool && n.now < n.asks[i].status.round.deadline
    ensures reach(b)
      && Asked(n, b, i, n.asks[i].status.left[0])
  {
    assert OnTime(n, AskOnward(i), delay);
    b := Next(w, n, AskOnward(i));
  }

  lemma Pass(w: World, start: nat, reach: Net -> bool, n: Net, delay: nat, nanos: nat)
    returns (b: Net)
    requires Closed(w, start, delay, reach) && reach(n)
    ensures reach(b) && b == n.(now := n.now + nanos)
  {
    assert OnTime(n, Wait(nanos), delay);
    b := Next(w, n, Wait(nanos));
  }

  /** A grant of whole milliseconds reads as it was sent. */
  lemma SentExactly(a: Activation, i: nat, peer: Node, depth: nat, grant: nat, id: AskId, at: nat)
    requires depth <= U64_MAX && AskTime.Whole(grant) && grant <= MAX_FORWARDED_ASK_BUDGET
    ensures Sent(a, i, Ask(peer, depth, grant, id, at))
         == Activation(peer, Some(a.to), HopBudget(Some(depth), id, Some(grant)), i, at, Pending)
  {
  }

  // ---------------------------------------------------------------------------------------------
  // A way through the network
  // ---------------------------------------------------------------------------------------------

  /** A length no node spoken of so far has. */
  function Longer(w: World): nat { |w.origin| + (if w.asker.Some? then |w.asker.value| else 0) + 1 }

  /** Nodes unlike the first, its asker and each other. */
  function Peer(w: World, k: nat): (node: Node)
    ensures |node| == Longer(w) + k
  {
    AskTime.Name(Longer(w) + k)
  }

  /** The `k`-th node of a way, and the one before it. */
  function OnWay(w: World, k: nat): Node { if k == 0 then w.origin else Peer(w, k) }

  function BeforeOnWay(w: World, k: nat): Option<Node> { if k == 0 then w.asker else Some(OnWay(w, k - 1)) }

  /** A leg in flight, with these peers left to ask, all connected. */
  predicate InFlight(a: Activation, id: AskId, to: Node, left: seq<Node>, depth: nat, deadline: nat) {
    && a.to == to && a.status.Working? && a.status.left == left
    && (forall i :: 0 <= i < |left| ==> left[i] in a.status.round.pool)
    && a.status.round.deadline == deadline && a.status.round.depth == depth && a.status.round.askId == id
  }

  lemma PickedInFlight(w: World, a: Activation, peers: seq<Node>, now: nat)
    requires a.budget.hops.Some? && a.Depth() < w.config.hopCap <= U8_MAX
    ensures var hops := w.config.hopCap - a.Depth() - 1;
      InFlight(a.(status := Working(peers, RoundOf(a.budget, Picking(w.config, peers, hops), now))), a.budget.askId,
               a.to,
               peers, a.Depth() + 1, now + a.budget.TimeBudget(hops, w.config.fanOut))
  {
  }

  /** The instant `k` delays after the start. */
  function Delayed(start: nat, delay: nat, k: nat): nat {
    if k == 0 then start else Delayed(start, delay, k - 1) + delay
  }

  lemma {:induction false} DelayedIsProduct(start: nat, delay: nat, k: nat)
    ensures Delayed(start, delay, k) == start + k * delay
  {
    if k == 0 {
    } else {
      DelayedIsProduct(start, delay, k - 1);
      assert k * delay == (k - 1) * delay + delay;
    }
  }

  /** Nobody further along the way than its `k`-th node has been reached, and none but the first `m` arrivals went to a
    * node off the way. */
  ghost predicate Untrodden(w: World, n: Net, k: nat, m: nat) {
    && (forall node :: |node| > Longer(w) + k ==> n.HistoryOf(node).run == [])
    && (forall y :: 0 <= y < |n.asks| ==> |n.asks[y].to| <= Longer(w) + k)
    && (forall y :: m <= y < |n.asks| ==> |n.asks[y].to| > Longer(w))
  }

  /** The `k`-th node of the way has just begun its leg, `k` delays after the first, with all of the time there was. */
  ghost predicate Stage(w: World, start: nat, delay: nat, n: Net, k: nat, i: nat, peers: seq<Node>, m: nat) {
    && n.now == Delayed(start, delay, k) && n.others == map[] && i < |n.asks| && m <= |n.asks|
    && InFlight(n.asks[i], w.first.askId, OnWay(w, k), peers, w.first.Used() + k + 1, n.now + Allotted(w))
    && n.asks[i].from == BeforeOnWay(w, k) && Untrodden(w, n, k, m)
  }

  /** What a way leaves as it was: the forwardings so far, and every node off it. */
  ghost predicate Leaves(w: World, n: Net, b: Net) {
    n.forwards <= b.forwards && forall node :: |node| <= Longer(w) ==> b.HistoryOf(node) == n.HistoryOf(node)
  }

  /** Peers a node of the way may pick: neither it nor the node before it. */
  predicate MayPick(w: World, k: nat, peers: seq<Node>) {
    && |peers| <= w.config.fanOut && Distinct(peers)
    && forall p :: p in peers ==> p != OnWay(w, k) && Some(p) != BeforeOnWay(w, k)
  }

  /** A world whose question can travel, and carries whole milliseconds, as every constructor of a budget makes it. */
  predicate Travels(w: World) {
    && w.Valid() && w.config.enabled && Allotted(w) > 0
    && (w.first.time.Some? ==> AskTime.Whole(w.first.time.value))
  }

  lemma AllottedIsWhole(w: World)
    requires Travels(w)
    ensures AskTime.Whole(Allotted(w)) && Allotted(w) <= MAX_FORWARDED_ASK_BUDGET
  {
    AskTime.WorkIsWhole(SaturatingSub(w.HopsLeft(), 1), w.config.fanOut);
  }

  /** An arrival not handled yet holds no slot. */
  lemma HoldsNoneYet(asks: seq<Activation>, x: nat, m: nat)
    requires |asks| == x + 1 && asks[x].status.Pending? && forall y :: m <= y < x ==> asks[y].to != asks[x].to
    ensures LegsAt(asks, asks[x].to) <= m
  {
    LegsAtMost(asks[..x], asks[x].to, m);
  }

  /** The arrival a node of the way sends on at once: for all the time that node has. */
  function SentOnWay(w: World, k: nat, i: nat, now: nat): Activation {
    Activation(Peer(w, k + 1), Some(OnWay(w, k)),
               HopBudget(Some(w.first.Used() + k + 1), w.first.askId, Some(Allotted(w))), i, now, Pending)
  }

  lemma AskedOnWay(w: World, n: Net, b: Net, k: nat, i: nat)
    requires Travels(w) && i < |n.asks| && w.first.Used() + k + 1 <= U64_MAX
    requires InFlight(n.asks[i], w.first.askId, OnWay(w, k), [Peer(w, k + 1)], w.first.Used() + k + 1,
                      n.now + Allotted(w))
    requires Asked(n, b, i, Peer(w, k + 1))
    ensures b == n.(asks := b.asks) && |b.asks| == |n.asks| + 1 && b.asks[|n.asks|] == SentOnWay(w, k, i, n.now)
    ensures forall y :: 0 <= y < |n.asks| ==> b.asks[y].to == n.asks[y].to
  {
    AllottedIsWhole(w);
    SentExactly(n.asks[i], i, Peer(w, k + 1), w.first.Used() + k + 1, Allotted(w), w.first.askId, n.now);
  }

  /** It can be handled, one delay on. */
  lemma NextCanHandle(w: World, n: Net, x: nat, k: nat, peers: seq<Node>, now: nat)
    requires Travels(w) && k + 1 < w.HopsLeft() && MayPick(w, k + 1, peers) && |n.asks| == x + 1 && n.others == map[]
    requires n.asks[x] == SentOnWay(w, k, n.asks[x].parent, now)
    requires forall y :: 0 <= y < x ==> |n.asks[y].to| <= Longer(w) + k
    requires n.HistoryOf(Peer(w, k + 1)).run == []
    ensures CanHandle(w, n, x, peers)
  {
    HoldsNoneYet(n.asks, x, 0);
  }

  lemma OneHopOn(w: World, start: nat, reach: Net -> bool, n: Net, delay: nat, k: nat, i: nat, m: nat, next: nat,
                 peers: seq<Node>) returns (b: Net)
    requires Travels(w) && Closed(w, start, delay, reach) && reach(n)
    requires Stage(w, start, delay, n, k, i, [Peer(w, next)], m) && k + 1 == next < w.HopsLeft()
    requires MayPick(w, next, peers)
    ensures reach(b) && Leaves(w, n, b)
    ensures Stage(w, start, delay, b, next, |n.asks|, peers, m)
  {
    assert [Peer(w, k + 1)][0] in n.asks[i].status.round.pool;
    var n1 := AskNextPeer(w, start, reach, n, delay, i);
    AskedOnWay(w, n, n1, k, i);
    var n2 := Pass(w, start, reach, n1, delay, delay);
    NextCanHandle(w, n2, |n.asks|, k, peers, n.now);
    b := Handle(w, start, reach, n2, delay, |n.asks|, peers);
    NextStage(w, start, delay, n, n2, b, k, i, m, peers);
  }

  lemma NextStage(w: World, start: nat, delay: nat, n: Net, n2: Net, b: Net, k: nat, i: nat, m: nat, peers: seq<Node>)
    requires Travels(w) && k + 1 < w.HopsLeft() && Stage(w, start, delay, n, k, i, [Peer(w, k + 1)], m)
    requires n2 == n.(now := n.now + delay, asks := n2.asks) && |n2.asks| == |n.asks| + 1
    requires n2.asks[|n.asks|] == SentOnWay(w, k, i, n.now)
    requires (forall y :: 0 <= y < |n.asks| ==> n2.asks[y].to == n.asks[y].to) && Handled(w, n2, b, |n.asks|, peers)
    ensures Stage(w, start, delay, b, k + 1, |n.asks|, peers, m) && Leaves(w, n, b)
  {
    HandledOnWay(w, n, n2, b, k, m, peers);
    HandledInFlight(w, n2, b, |n.asks|, k, peers);
  }

  lemma HandledInFlight(w: World, n: Net, b: Net, x: nat, k: nat, peers: seq<Node>)
    requires Travels(w) && x < |n.asks| && k + 1 < w.HopsLeft()
    requires n.asks[x] == SentOnWay(w, k, n.asks[x].parent, n.asks[x].at) && Handled(w, n, b, x, peers)
    ensures b.now == n.now && b.others == n.others && b.asks[x].from == BeforeOnWay(w, k + 1)
    ensures InFlight(b.asks[x], w.first.askId, OnWay(w, k + 1), peers, w.first.Used() + k + 2, b.now + Allotted(w))
  {
    PickedInFlight(w, n.asks[x], peers, n.now);
  }

  /** Handling the next arrival treads no further than its node. */
  lemma HandledOnWay(w: World, n: Net, n2: Net, b: Net, k: nat, m: nat, peers: seq<Node>)
    requires Untrodden(w, n, k, m) && m <= |n.asks| && n2.histories == n.histories && n2.forwards == n.forwards
    requires |n2.asks| == |n.asks| + 1 && (forall y :: 0 <= y < |n.asks| ==> n2.asks[y].to == n.asks[y].to)
    requires n2.asks[|n.asks|].to == Peer(w, k + 1) && n2.asks[|n.asks|].Depth() < w.config.hopCap
    requires Handled(w, n2, b, |n.asks|, peers)
    ensures Untrodden(w, b, k + 1, m) && Leaves(w, n, b)
  {
    forall node | |node| > Longer(w) + k + 1 ensures b.HistoryOf(node).run == [] {
      assert n2.HistoryOf(node) == n.HistoryOf(node);
    }
    forall node | |node| <= Longer(w) ensures b.HistoryOf(node) == n.HistoryOf(node) {
      assert n2.HistoryOf(node) == n.HistoryOf(node);
    }
  }

  lemma NextMayPick(w: World, k: nat, next: nat)
    requires w.config.fanOut >= 1 && k + 1 == next
    ensures MayPick(w, k, [Peer(w, next)])
  {
  }

  lemma LeavesOn(w: World, n: Net, n1: Net, b: Net)
    requires Leaves(w, n, n1) && Leaves(w, n1, b)
    ensures Leaves(w, n, b)
  {
  }

  /** From one node of the way to a later one, each beginning its leg one delay after it was asked. */
  lemma {:induction false} HopsOn(w: World, start: nat, reach: Net -> bool, n: Net, delay: nat, k: nat, i: nat, m: nat,
                                  next: nat, last: nat, peers: seq<Node>)
    returns (b: Net, j: nat)
    requires Travels(w) && Closed(w, start, delay, reach) && reach(n)
    requires Stage(w, start, delay, n, k, i, [Peer(w, next)], m) && k + 1 == next <= last < w.HopsLeft()
    requires MayPick(w, last, peers) && w.config.fanOut >= 1
    ensures reach(b) && Leaves(w, n, b)
    ensures Stage(w, start, delay, b, last, j, peers, m)
    decreases last
  {
    if next == last {
      b := OneHopOn(w, start, reach, n, delay, k, i, m, last, peers);
      j := |n.asks|;
    } else {
      var before := last - 1;
      NextMayPick(w, before, last);
      var n1, j1 := HopsOn(w, start, reach, n, delay, k, i, m, next, before, [Peer(w, last)]);
      b := OneHopOn(w, start, reach, n1, delay, before, j1, m, last, peers);
      j := |n1.asks|;
      LeavesOn(w, n, n1, b);
    }
  }

  // ---------------------------------------------------------------------------------------------
  // Where a way may end
  // ---------------------------------------------------------------------------------------------

  /** A node off every way, that takes its time. */
  function Idle(w: World): Node { Peer(w, w.HopsLeft()) }

  /** The arrival a leg sends last, with hardly any time left. */
  predicate IsLate(w: World, a: Activation, k: nat, i: nat, target: Node, at: nat) {
    && a.to == target && a.from == Some(OnWay(w, k)) && a.parent == i && a.at == at && a.status.Pending?
    && a.budget.hops == Some(w.first.Used() + k + 1) && a.budget.askId == w.first.askId
  }

  lemma SentLate(w: World, a: Activation, i: nat, k: nat, target: Node, now: nat)
    requires a.to == OnWay(w, k) && w.first.Used() + k + 1 <= U64_MAX
    ensures IsLate(w, Sent(a, i, Ask(target, w.first.Used() + k + 1, 1, w.first.askId, now)), k, i, target, now)
  {
  }

  /** What asking its next peer makes of a leg, and whom it reaches. */
  lemma AskedOn(n: Net, b: Net, i: nat, id: AskId, to: Node, peer: Node, rest: seq<Node>, depth: nat, deadline: nat)
    requires i < |n.asks| && InFlight(n.asks[i], id, to, [peer] + rest, depth, deadline) && Asked(n, b, i, peer)
    ensures b == n.(asks := b.asks) && |b.asks| == |n.asks| + 1 && InFlight(b.asks[i], id, to, rest, depth, deadline)
    ensures b.asks[i].from == n.asks[i].from
    ensures forall y :: 0 <= y < |n.asks| && y != i ==> b.asks[y] == n.asks[y]
    ensures b.asks[|n.asks|] == Sent(n.asks[i], i, Ask(peer, depth, SaturatingSub(deadline, n.now), id, n.now))
  {
    assert ([peer] + rest)[1..] == rest;
    forall y | 0 <= y < |rest| ensures rest[y] in b.asks[i].status.round.pool {
      assert ([peer] + rest)[y + 1] == rest[y];
    }
  }

  lemma NextIsConnected(a: Activation, id: AskId, to: Node, peer: Node, rest: seq<Node>, depth: nat, deadline: nat)
    requires InFlight(a, id, to, [peer] + rest, depth, deadline)
    ensures a.status.left != [] && a.status.left[0] == peer && peer in a.status.round.pool
  {
    assert ([peer] + rest)[0] == peer;
  }

  /** A leg asks its next peer, of those it has left. */
  lemma AskOn(w: World, start: nat, reach: Net -> bool, n: Net, delay: nat, i: nat, to: Node, peer: Node,
              rest: seq<Node>,
              depth: nat, deadline: nat) returns (b: Net)
    requires w.Valid() && Closed(w, start, delay, reach) && reach(n) && i < |n.asks| && n.now < deadline
    requires InFlight(n.asks[i], w.first.askId, to, [peer] + rest, depth, deadline)
    ensures reach(b)
    ensures b == n.(asks := b.asks) && |b.asks| == |n.asks| + 1
    ensures InFlight(b.asks[i], w.first.askId, to, rest, depth, deadline) && b.asks[i].from == n.asks[i].from
    ensures forall y :: 0 <= y < |n.asks| && y != i ==> b.asks[y] == n.asks[y]
    ensures b.asks[|n.asks|] == Sent(n.asks[i], i, Ask(peer, depth, deadline - n.now, w.first.askId, n.now))
  {
    NextIsConnected(n.asks[i], w.first.askId, to, peer, rest, depth, deadline);
    b := AskNextPeer(w, start, reach, n, delay, i);
    AskedOn(n, b, i, w.first.askId, to, peer, rest, depth, deadline);
  }

  /** A leg asks one peer at once, which takes all of its time but the last nanosecond, and then another. */
  lemma AskLate(w: World, start: nat, reach: Net -> bool, n: Net, delay: nat, k: nat, i: nat, idle: Node, target: Node)
    returns (b: Net)
    requires Travels(w) && Closed(w, start, delay, reach) && reach(n) && i < |n.asks| && k + 1 < w.HopsLeft()
    requires InFlight(n.asks[i], w.first.askId, OnWay(w, k), [idle] + [target], w.first.Used() + k + 1,
                      n.now + Allotted(w))
    ensures reach(b)
    ensures b == n.(now := n.now + Allotted(w) - 1, asks := b.asks) && |b.asks| == |n.asks| + 2
    ensures (forall y :: 0 <= y < |n.asks| ==> b.asks[y].to == n.asks[y].to) && b.asks[|n.asks|].to == idle
    ensures IsLate(w, b.asks[|n.asks| + 1], k, i, target, b.now)
  {
    var deadline, depth := n.now + Allotted(w), w.first.Used() + k + 1;
    var n1 := AskOn(w, start, reach, n, delay, i, OnWay(w, k), idle, [target], depth, deadline);
    var n2 := Pass(w, start, reach, n1, delay, Allotted(w) - 1);
    assert [target] + [] == [target];
    b := AskOn(w, start, reach, n2, delay, i, OnWay(w, k), target, [], depth, deadline);
    SentLate(w, n2.asks[i], i, k, target, n2.now);
  }

  /** When the target begins its leg, one delay later again. */
  function Latest(w: World, start: nat, delay: nat, k: nat): nat
    requires Allotted(w) > 0
  {
    Delayed(start, delay, k) + (Allotted(w) - 1) + delay
  }

  lemma LateCanHandle(w: World, n: Net, x: nat, k: nat, i: nat, m: nat, target: Node, at: nat, peers: seq<Node>)
    requires Travels(w) && k + 1 < w.HopsLeft() && |n.asks| == x + 1 && n.others == map[] && m <= 2
    requires IsLate(w, n.asks[x], k, i, target, at) && forall y :: m <= y < x ==> n.asks[y].to != target
    requires |peers| <= w.config.fanOut && Distinct(peers) && forall p :: p in peers ==> p != OnWay(w, k) && p != target
    requires forall c :: c in n.HistoryOf(target).run ==> n.now - c.now >= MAX_FORWARDED_ASK_BUDGET
    ensures CanHandle(w, n, x, peers)
  {
    HoldsNoneYet(n.asks, x, m);
  }

  /** A node nobody has heard of. */
  function Further(w: World, target: Node): (node: Node)
    ensures |node| > Longer(w) + w.HopsLeft() && node != target
  {
    AskTime.Name(Longer(w) + w.HopsLeft() + |target| + 1)
  }

  lemma LateIsNew(w: World, n: Net, n1: Net, n2: Net, m: nat, target: Node)
    requires |n1.asks| == |n.asks| + 2 && n1.histories == n.histories && n2.histories == n1.histories
    requires n2.asks == n1.asks && target != Idle(w) && n1.asks[|n.asks|].to == Idle(w)
    requires forall y :: 0 <= y < |n.asks| ==> n1.asks[y].to == n.asks[y].to
    requires forall y :: m <= y < |n.asks| ==> n.asks[y].to != target
    ensures forall y :: m <= y < |n2.asks| - 1 ==> n2.asks[y].to != target
    ensures n2.HistoryOf(target) == n.HistoryOf(target)
  {
  }

  /** The late ask, until it is about to be handled. */
  lemma SendLate(w: World, start: nat, reach: Net -> bool, n: Net, delay: nat, k: nat, i: nat, m: nat, target: Node)
    returns (b: Net, at: nat)
    requires Travels(w) && Closed(w, start, delay, reach) && reach(n) && k + 1 < w.HopsLeft()
    requires Stage(w, start, delay, n, k, i, [Idle(w)] + [target], m)
    requires target != Idle(w) && forall y :: m <= y < |n.asks| ==> n.asks[y].to != target
    ensures reach(b) && b.now == at + delay == Latest(w, start, delay, k) && b.others == map[] && |b.asks| > 1
    ensures b.forwards == n.forwards && b.HistoryOf(target) == n.HistoryOf(target)
    ensures IsLate(w, b.asks[|b.asks| - 1], k, i, target, at)
    ensures forall y :: m <= y < |b.asks| - 1 ==> b.asks[y].to != target
  {
    var n1 := AskLate(w, start, reach, n, delay, k, i, Idle(w), target);
    at := n1.now;
    b := Pass(w, start, reach, n1, delay, delay);
    LateIsNew(w, n, n1, b, m, target);
  }

  lemma LastLeg(w: World, start: nat, reach: Net -> bool, n: Net, delay: nat, k: nat, i: nat, m: nat, target: Node,
                at: nat) returns (b: Net)
    requires Travels(w) && Closed(w, start, delay, reach) && reach(n) && k + 1 < w.HopsLeft() && m <= 2
      && w.config.fanOut >= 1
    requires n.others == map[] && |n.asks| > 1 && n.now == at + delay
    requires IsLate(w, n.asks[|n.asks| - 1], k, i, target, at)
    requires forall y :: m <= y < |n.asks| - 1 ==> n.asks[y].to != target
    requires forall c :: c in n.HistoryOf(target).run ==> n.now - c.now >= MAX_FORWARDED_ASK_BUDGET
    ensures reach(b)
    ensures b.HistoryOf(target).run == n.HistoryOf(target).run + [Claim((w.first.askId, w.content), n.now, true)]
    ensures |b.forwards| == |n.forwards| + 1 && n.forwards <= b.forwards
    ensures b.forwards[|n.forwards|].node == target && b.forwards[|n.forwards|].claim == |n.HistoryOf(target).run|
  {
    var x := |n.asks| - 1;
    LateCanHandle(w, n, x, k, i, m, target, at, [Further(w, target)]);
    b := Handle(w, start, reach, n, delay, x, [Further(w, target)]);
  }

  /** The end of a way: its last node forwards the question too, if its seen-set has forgotten it or never had it. */
  lemma WayEnds(w: World, start: nat, reach: Net -> bool, n: Net, delay: nat, k: nat, i: nat, m: nat, target: Node)
    returns (b: Net)
    requires Travels(w) && Closed(w, start, delay, reach) && reach(n) && k + 1 < w.HopsLeft() && m <= 2
      && w.config.fanOut >= 1
    requires Stage(w, start, delay, n, k, i, [Idle(w)] + [target], m)
    requires target != Idle(w) && forall y :: m <= y < |n.asks| ==> n.asks[y].to != target
    requires forall c :: c in n.HistoryOf(target).run ==> Latest(w, start, delay, k) - c.now >= MAX_FORWARDED_ASK_BUDGET
    ensures reach(b)
    ensures b.HistoryOf(target).run ==
      n.HistoryOf(target).run + [Claim((w.first.askId, w.content), Latest(w, start, delay, k), true)]
    ensures |b.forwards| == |n.forwards| + 1 && n.forwards <= b.forwards
    ensures b.forwards[|n.forwards|].node == target && b.forwards[|n.forwards|].claim == |n.HistoryOf(target).run|
  {
    var n2, at := SendLate(w, start, reach, n, delay, k, i, m, target);
    b := LastLeg(w, start, reach, n2, delay, k, i, m, target, at);
  }

  /** Networks a run can lead to, each node beginning its leg in time. */
  ghost predicate Attained(w: World, start: nat, delay: nat, n: Net) {
    exists events :: Promptly(w, start, events, delay, n)
  }

  lemma AttainedIsClosed(w: World, start: nat, delay: nat)
    requires w.Valid()
    ensures Closed(w, start, delay, n => Attained(w, start, delay, n))
    ensures Attained(w, start, delay, Start(w, start))
  {
    forall n, e | Attained(w, start, delay, n) && Enabled(w, n, e) && OnTime(n, e, delay)
      ensures Attained(w, start, delay, Next(w, n, e))
    {
      var events :| Promptly(w, start, events, delay, n);
      OneEventMore(w, start, events, n, e, delay);
      assert Promptly(w, start, events + [e], delay, Next(w, n, e));
    }
    forall n | Attained(w, start, delay, n) ensures Walked(w, start, n) {
      var events :| Promptly(w, start, events, delay, n);
      EveryRunIsWalked(w, start, events);
    }
    assert Promptly(w, start, [], delay, Start(w, start));
  }

  /** The first node begins its leg. */
  lemma WayBegins(w: World, start: nat, reach: Net -> bool, delay: nat, peers: seq<Node>) returns (b: Net)
    requires Travels(w) && Closed(w, start, delay, reach) && reach(Start(w, start)) && 0 < w.HopsLeft()
    requires MayPick(w, 0, peers)
    ensures reach(b) && b.forwards == [Forwarding(w.origin, 0, 0)] && |b.asks| == 1
    ensures Stage(w, start, delay, b, 0, 0, peers, 1)
    ensures forall node :: |node| >= Longer(w) ==> b.HistoryOf(node).run == []
  {
    var n := Start(w, start);
    LegsAtMost(n.asks[..0], w.origin, 0);
    b := Handle(w, start, reach, n, delay, 0, peers);
    PickedInFlight(w, n.asks[0], peers, start);
  }

  /** A way of every hop there is, to a node that has not heard of the question: it forwards it as late as can be. */
  lemma LatestForwarding(w: World, start: nat, reach: Net -> bool, delay: nat) returns (b: Net)
    requires Travels(w) && Closed(w, start, delay, reach) && reach(Start(w, start)) && w.HopsLeft() >= 2
    requires w.config.fanOut >= 2
    ensures reach(b) && b.forwards != []
    ensures ClaimedAt(b, b.forwards[|b.forwards| - 1]) == Latest(w, start, delay, w.HopsLeft() - 2)
  {
    var last, end := w.HopsLeft() - 2, w.HopsLeft() - 1;
    var n, j;
    assert MayPick(w, last, [Idle(w)] + [Peer(w, end)]);
    if last == 0 {
      n := WayBegins(w, start, reach, delay, [Idle(w)] + [Peer(w, end)]);
      j := 0;
    } else {
      NextMayPick(w, 0, 1);
      var n0 := WayBegins(w, start, reach, delay, [Peer(w, 1)]);
      n, j := HopsOn(w, start, reach, n0, delay, 0, 0, 1, 1, last, [Idle(w)] + [Peer(w, end)]);
    }
    assert n.HistoryOf(Peer(w, end)).run == [];
    b := WayEnds(w, start, reach, n, delay, last, j, 1, Peer(w, end));
  }

  /** The node asked twice. */
  function Twice(w: World): Node { Peer(w, 0) }

  /** Before the way begins, the first node asks another. */
  lemma AskTwice(w: World, start: nat, reach: Net -> bool, delay: nat) returns (b: Net)
    requires Travels(w) && Closed(w, start, delay, reach) && reach(Start(w, start)) && w.HopsLeft() >= 3
    requires w.config.fanOut >= 2
    ensures reach(b) && b.now == start && b.others == map[] && |b.asks| == 2
    ensures b.forwards == [Forwarding(w.origin, 0, 0)]
    ensures b.asks[1] == SentFirst(w, start) && b.asks[0].from == w.asker
    ensures InFlight(b.asks[0], w.first.askId, w.origin, [Peer(w, 1)], w.first.Used() + 1, start + Allotted(w))
    ensures forall node :: |node| >= Longer(w) ==> b.HistoryOf(node).run == []
  {
    TwoMayBePicked(w);
    var n := WayBegins(w, start, reach, delay, [Twice(w)] + [Peer(w, 1)]);
    b := AskOn(w, start, reach, n, delay, 0, w.origin, Twice(w), [Peer(w, 1)], w.first.Used() + 1, start + Allotted(w));
    SentAtOnce(w, n.asks[0], start);
  }

  lemma TwoMayBePicked(w: World)
    requires w.config.fanOut >= 2
    ensures MayPick(w, 0, [Twice(w)] + [Peer(w, 1)])
  {
  }

  lemma SentAtOnce(w: World, a: Activation, start: nat)
    requires Travels(w) && a.to == w.origin && w.first.Used() + 1 <= U64_MAX
    ensures Sent(a, 0, Ask(Twice(w), w.first.Used() + 1, Allotted(w), w.first.askId, start)) == SentFirst(w, start)
  {
    AllottedIsWhole(w);
    SentExactly(a, 0, Twice(w), w.first.Used() + 1, Allotted(w), w.first.askId, start);
  }

  function SentFirst(w: World, start: nat): Activation {
    Activation(Twice(w), Some(w.origin), HopBudget(Some(w.first.Used() + 1), w.first.askId, Some(Allotted(w))), 0,
               start,
               Pending)
  }

  /** And that one forwards the question at once. */
  lemma TwiceForwards(w: World, start: nat, reach: Net -> bool, delay: nat) returns (b: Net)
    requires Travels(w) && Closed(w, start, delay, reach) && reach(Start(w, start)) && w.HopsLeft() >= 3
    requires w.config.fanOut >= 2
    ensures reach(b) && b.forwards == [Forwarding(w.origin, 0, 0), Forwarding(Twice(w), 0, 1)]
    ensures b.HistoryOf(Twice(w)).run == [Claim((w.first.askId, w.content), start, true)]
    ensures Stage(w, start, delay, b, 0, 0, [Peer(w, 1)], 2)
  {
    var n := AskTwice(w, start, reach, delay);
    TwiceCanHandle(w, n, start);
    b := Handle(w, start, reach, n, delay, 1, [Idle(w)]);
    TwiceStage(w, start, delay, n, b);
  }

  lemma TwiceStage(w: World, start: nat, delay: nat, n: Net, b: Net)
    requires Travels(w) && w.HopsLeft() >= 3 && n.now == start && n.others == map[] && |n.asks| == 2
    requires n.asks[1] == SentFirst(w, start) && n.asks[0].from == w.asker && Handled(w, n, b, 1, [Idle(w)])
    requires InFlight(n.asks[0], w.first.askId, w.origin, [Peer(w, 1)], w.first.Used() + 1, start + Allotted(w))
    requires forall node :: |node| >= Longer(w) ==> n.HistoryOf(node).run == []
    ensures Stage(w, start, delay, b, 0, 0, [Peer(w, 1)], 2)
    ensures b.HistoryOf(Twice(w)).run == [Claim((w.first.askId, w.content), start, true)]
  {
    forall node | |node| > Longer(w) ensures b.HistoryOf(node).run == [] {
      assert b.HistoryOf(node) == n.HistoryOf(node);
    }
  }

  lemma TwiceCanHandle(w: World, n: Net, at: nat)
    requires Travels(w) && w.HopsLeft() >= 3 && w.config.fanOut >= 1 && |n.asks| == 2 && n.others == map[]
    requires n.asks[0].to == w.origin && n.HistoryOf(Twice(w)).run == []
    requires n.asks[1] == SentFirst(w, at)
    ensures CanHandle(w, n, 1, [Idle(w)])
  {
    HoldsNoneYet(n.asks, 1, 0);
  }

  /** The way leads back to that node, which forwards the question again if its seen-set has forgotten it by then. */
  lemma BackToTwice(w: World, start: nat, reach: Net -> bool, n: Net, delay: nat, k: nat, j: nat) returns (b: Net)
    requires Travels(w) && Closed(w, start, delay, reach) && reach(n) && 0 < k && k + 1 < w.HopsLeft()
    requires w.config.fanOut >= 2 && Stage(w, start, delay, n, k, j, [Idle(w)] + [Twice(w)], 2)
    requires n.HistoryOf(Twice(w)).run == [Claim((w.first.askId, w.content), start, true)]
    requires Latest(w, start, delay, k) - start >= MAX_FORWARDED_ASK_BUDGET
    ensures reach(b) && |b.forwards| == |n.forwards| + 1 && n.forwards <= b.forwards
    ensures b.forwards[|n.forwards|].node == Twice(w) && |b.HistoryOf(Twice(w)).run| == 2
  {
    b := WayEnds(w, start, reach, n, delay, k, j, 2, Twice(w));
  }

  lemma TwiceMayBePicked(w: World, k: nat)
    requires 0 < k && k < w.HopsLeft() && w.config.fanOut >= 2
    ensures MayPick(w, k, [Idle(w)] + [Twice(w)])
  {
  }

  lemma StillInPlace(first: seq<Forwarding>, later: seq<Forwarding>, last: seq<Forwarding>, i: nat)
    requires first <= later <= last && i < |first|
    ensures last[i] == first[i] && |last| >= |first|
  {
  }

  lemma StillClaimedOnce(w: World, n: Net, b: Net)
    requires Leaves(w, n, b)
    ensures b.HistoryOf(Twice(w)) == n.HistoryOf(Twice(w)) && |b.forwards| >= |n.forwards|
  {
  }

  lemma WayToTwice(w: World, start: nat, reach: Net -> bool, n: Net, delay: nat, last: nat) returns (b: Net, j: nat)
    requires Travels(w) && Closed(w, start, delay, reach) && reach(n) && 0 < last < w.HopsLeft()
    requires w.config.fanOut >= 2 && Stage(w, start, delay, n, 0, 0, [Peer(w, 1)], 2)
    ensures reach(b) && Leaves(w, n, b) && Stage(w, start, delay, b, last, j, [Idle(w)] + [Twice(w)], 2)
  {
    TwiceMayBePicked(w, last);
    b, j := HopsOn(w, start, reach, n, delay, 0, 0, 2, 1, last, [Idle(w)] + [Twice(w)]);
  }

  /** A way of every hop there is, back to that node. */
  lemma ForwardsTwice(w: World, start: nat, reach: Net -> bool, delay: nat) returns (b: Net, again: nat)
    requires Travels(w) && Closed(w, start, delay, reach) && reach(Start(w, start)) && w.HopsLeft() >= 3
    requires w.config.fanOut >= 2
    requires Latest(w, start, delay, w.HopsLeft() - 2) - start >= MAX_FORWARDED_ASK_BUDGET
    ensures reach(b) && 1 < again < |b.forwards| && |b.HistoryOf(Twice(w)).run| == 2
    ensures b.forwards[1].node == Twice(w) && b.forwards[again].node == Twice(w)
  {
    var last := w.HopsLeft() - 2;
    var n := TwiceForwards(w, start, reach, delay);
    var n1, j := WayToTwice(w, start, reach, n, delay, last);
    StillClaimedOnce(w, n, n1);
    b := BackToTwice(w, start, reach, n1, delay, last, j);
    again := |n1.forwards|;
    StillInPlace(n.forwards, n1.forwards, b.forwards, 1);
  }

  // ---------------------------------------------------------------------------------------------
  // Exactly when a lifetime is enough
  // ---------------------------------------------------------------------------------------------

  lemma LatestIsSpread(w: World, start: nat, delay: nat)
    requires Allotted(w) > 0 && w.HopsLeft() >= 2
    ensures Latest(w, start, delay, w.HopsLeft() - 2) == start + Spread(w, delay) - 1
  {
    var k := w.HopsLeft() - 2;
    DelayedIsProduct(start, delay, k);
    assert (k + 1) * delay == k * delay + delay;
  }

  lemma {:induction false} GrantsAreClaims(run: seq<Claim>, k: nat, t: nat)
    requires k <= |run|
    ensures GrantedSince(run, k, t) <= k
  {
    if k == 0 {
    } else {
      GrantsAreClaims(run, k - 1, t);
    }
  }

  /** Remembering a question for a lifetime keeps every node from forwarding it twice, in every run whose messages and
    * searches take no more than `delay`, exactly when the question cannot come back or its forwardings spread over no
    * more than a lifetime. */
  lemma ALifetimeSufficesExactlyWhen(w: World, start: nat, delay: nat)
    requires w.Valid() && (w.first.time.Some? ==> AskTime.Whole(w.first.time.value))
    requires w.config.fanOut != 1 || w.HopsLeft() <= 3
    ensures (forall n :: Attained(w, start, delay, n) ==> ForwardsOnceUnlessOverfilled(n))
      <==> !CanComeBack(w) || Spread(w, delay) <= MAX_FORWARDED_ASK_BUDGET
  {
    if !CanComeBack(w) || Spread(w, delay) <= MAX_FORWARDED_ASK_BUDGET {
      forall n | Attained(w, start, delay, n) ensures ForwardsOnceUnlessOverfilled(n) {
        var events :| Promptly(w, start, events, delay, n);
        if !CanComeBack(w) {
          EachNodeForwardsOnce(w, start, events);
        } else {
          ALifetimeSuffices(w, start, events, delay);
        }
      }
    } else {
      var reach := n => Attained(w, start, delay, n);
      AttainedIsClosed(w, start, delay);
      LatestIsSpread(w, start, delay);
      var b, again := ForwardsTwice(w, start, reach, delay);
      var run := b.HistoryOf(Twice(w)).run;
      GrantsAreClaims(run, |run|, 0);
      assert Attained(w, start, delay, b) && !Overfilled(b, Twice(w));
      assert b.forwards[1].node == b.forwards[again].node;
    }
  }

  /** Every claim the question is forwarded on came within a lifetime of the first. */
  ghost predicate DoneInALifetime(n: Net, start: nat) {
    forall x :: 0 <= x < |n.forwards| ==> ClaimedAt(n, n.forwards[x]) < start + MAX_FORWARDED_ASK_BUDGET
  }

  /** A question that travels at least two hops is done with by the time the first claim on it lapses, in every such
    * run, exactly under the same bound. */
  lemma NoRequestOutlivesALifetimeExactlyWhen(w: World, start: nat, delay: nat)
    requires Travels(w) && w.config.fanOut >= 2 && w.HopsLeft() >= 2
    ensures (forall n :: Attained(w, start, delay, n) ==> DoneInALifetime(n, start))
      <==> Spread(w, delay) <= MAX_FORWARDED_ASK_BUDGET
  {
    if Spread(w, delay) <= MAX_FORWARDED_ASK_BUDGET {
      forall n | Attained(w, start, delay, n) ensures DoneInALifetime(n, start) {
        var events :| Promptly(w, start, events, delay, n);
        forall x | 0 <= x < |n.forwards| ensures ClaimedAt(n, n.forwards[x]) < start + MAX_FORWARDED_ASK_BUDGET {
          ForwardingsLieWithin(w, start, events, delay, x);
        }
      }
    } else {
      var reach := n => Attained(w, start, delay, n);
      AttainedIsClosed(w, start, delay);
      LatestIsSpread(w, start, delay);
      var b := LatestForwarding(w, start, reach, delay);
      assert Attained(w, start, delay, b) && !DoneInALifetime(b, start);
    }
  }

  /** The bounds every node running this code has - three peers, two hops - and a question that came with the largest
    * budget there is: however promptly nodes begin their legs, unless at once, in some run one is still forwarding it
    * when the first claim on it has lapsed; and in none does a node forward it twice. */
  lemma UnderWayPastItsLifetime(w: World, start: nat, delay: nat)
    requires w.Valid() && w.config.enabled && w.config.fanOut == 3 && w.config.hopCap == 2 && w.first.Used() == 0
    requires w.first.time == Some(MAX_FORWARDED_ASK_BUDGET) && delay > 0
    ensures exists n :: Attained(w, start, delay, n) && !DoneInALifetime(n, start)
    ensures forall n :: Attained(w, start, delay, n) ==> ForwardsApart(n)
  {
    assert MAX_FORWARDED_ASK_BUDGET == 65_000 * NANOS_PER_MILLI;
    NoRequestOutlivesALifetimeExactlyWhen(w, start, delay);
    forall n | Attained(w, start, delay, n) ensures ForwardsApart(n) {
      var events :| Promptly(w, start, events, delay, n);
      OnceAtTheDefaults(w, start, events);
    }
  }
}
