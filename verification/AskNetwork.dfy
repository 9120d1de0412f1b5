/** One question travelling through a network of honest nodes.
  *
  * Every node runs the forwarded leg of `ForwardedAsk` under one shared configuration; who is connected to
  * whom, which peers a decision picks within its contract, when messages arrive, how the nodes interleave
  * and what else their seen-sets are asked meanwhile may be anything. The leg's loop is cut at each ask, so
  * that other nodes may act in between. */
module AskNetwork {
  import opened Common
  import opened HolderCache
  import opened HopBudget
  import opened ForwardedAsk

  type Node = string

  /** The shared configuration, and the question whose travels these are: what it asks for, the node it enters at,
    * who asked that node (nobody, when it is that node's own), and the budget it came with. */
  datatype World = World(config: Config, content: ContentId, origin: Node, asker: Option<Node>, first: HopBudget) {
    /** A question that may travel at all: its hops are readable and within the cap. */
    predicate Valid() { config.Valid() && first.Valid() && first.hops.Some? && first.Used() <= config.hopCap }

    /** The hops the question may still make. */
    function HopsLeft(): nat { SaturatingSub(config.hopCap, first.Used()) }
  }

  /** A question put to a node: not yet handled, being asked onward, or finished. */
  datatype Status = Pending | Working(left: seq<Node>, round: Round) | Done

  /** One arrival of the question, sent at `at`. `parent` is the arrival whose handling sent it; the first has none. */
  datatype Activation = Activation(to: Node, from: Option<Node>, budget: HopBudget, parent: nat, at: nat,
                                   status: Status) {
    function Depth(): nat { budget.Used() }
  }

  /** Everything one node's seen-set was asked, and its contents before each claim and after the last. */
  datatype History = History(run: seq<Claim>, states: seq<Seen>)

  /** A node forwarding the question, the claim that let it, and the arrival it was handling. */
  datatype Forwarding = Forwarding(node: Node, claim: nat, arrival: nat)

  /** `others` is how many slots of each node are held by the legs of other questions. */
  datatype Net = Net(now: nat, asks: seq<Activation>, histories: map<Node, History>, forwards: seq<Forwarding>,
                     others: map<Node, nat>)
  {
    function HistoryOf(node: Node): History {
      if node in histories then histories[node] else History([], [map[]])
    }

    function OthersAt(node: Node): nat { if node in others then others[node] else 0 }

    /** The slots of a node that are held: by its legs of this question in flight, and by those of others. */
    function Held(node: Node): nat { LegsAt(asks, node) + OthersAt(node) }
  }

  /** How many legs of the question one node has in flight. */
  function LegsAt(asks: seq<Activation>, node: Node): nat {
    if asks == [] then 0 else LegsAt(asks[..|asks| - 1], node) + HoldsSlot(asks[|asks| - 1], node)
  }

  function HoldsSlot(a: Activation, node: Node): nat { if a.to == node && a.status.Working? then 1 else 0 }

  /** What happens next: an arrival is handled, as far as its leg; a leg looks at its next peer; a leg with none left
    * returns; and, in between, a seen-set is asked another question, a leg of another question begins or ends, or
    * time passes. */
  datatype Event =
    | Deliver(i: nat, env: Env, granted: bool, seen: Seen)
    | AskOnward(i: nat)
    | Return(i: nat)
    | Elsewhere(node: Node, claim: Claim, seen: Seen)
    | OtherLeg(node: Node, begins: bool)
    | Wait(nanos: nat)

  function Start(w: World, now: nat): Net {
    Net(now, [Activation(w.origin, w.asker, w.first, 0, now, Pending)], map[], [], map[])
  }

  function QuestionOf(w: World, a: Activation): Question { (a.budget.askId, w.content) }

  ghost predicate Claims(h: History, claim: Claim, seen: Seen) {
    h.states != [] && ClaimStep(h.states[|h.states| - 1], claim, seen, MAX_FORWARDED_ASK_BUDGET, ASK_SEEN_CAPACITY)
  }

  ghost predicate Enabled(w: World, n: Net, e: Event) {
    match e
    case Deliver(i, env, granted, seen) =>
      && i < |n.asks| && n.asks[i].status.Pending?
      && env.Bounds() == w.config && env.Honours(n.asks[i].budget, n.asks[i].from, Some(n.asks[i].to))
      && (env.Reaches() ==> Claims(n.HistoryOf(n.asks[i].to), Claim(QuestionOf(w, n.asks[i]), n.now, granted), seen))
      && (env.Reaches() && granted ==> env == env.WithSlots(n.Held(n.asks[i].to)))
    case AskOnward(i) => i < |n.asks| && n.asks[i].status.Working? && n.asks[i].status.left != []
    case Return(i) => i < |n.asks| && n.asks[i].status.Working? && n.asks[i].status.left == []
    case Elsewhere(node, claim, seen) =>
      claim.now == n.now && claim.question != (w.first.askId, w.content) && Claims(n.HistoryOf(node), claim, seen)
    case OtherLeg(node, begins) =>
      if begins then n.Held(node) < MAX_CONCURRENT_FORWARDED_ASKS else n.OthersAt(node) > 0
    case Wait(nanos) => true
  }

  function Extended(h: History, claim: Claim, seen: Seen): History { History(h.run + [claim], h.states + [seen]) }

  /** What one look at the next peer does: the loop body of the leg, at this instant. */
  function Look(n: Net, left: seq<Node>, round: Round): Progress
    requires left != []
  {
    AskNext(Progress([], [], [], n.now, false), left[0], round)
  }

  /** What is left of a node's round after it. */
  function Rest(p: Progress, status: Status): Status
    requires status.Working? && status.left != []
  {
    if p.outOfTime then Done else Working(status.left[1..], status.round)
  }

  /** The question as the asked peer reads it off the wire. */
  function Sent(a: Activation, i: nat, ask: Ask): Activation {
    Activation(ask.peer, Some(a.to), FromParams(Number(ask.depth), WireBudget(ask.grant), Some(ask.askId), 0), i,
               ask.at, Pending)
  }

  ghost function Next(w: World, n: Net, e: Event): Net
    requires Enabled(w, n, e)
  {
    match e
    case Deliver(i, env, granted, seen) =>
      var a := n.asks[i];
      if !env.Reaches() then n.(asks := n.asks[i := a.(status := Done)])
      else
        var h := n.HistoryOf(a.to);
        var claimed := n.(histories := n.histories[a.to := Extended(h, Claim(QuestionOf(w, a), n.now, granted), seen)]);
        if granted && env.slotFree then
          claimed.(asks := n.asks[i := a.(status := Working(env.decision.peers, RoundOf(a.budget, env, n.now)))],
                   forwards := n.forwards + [Forwarding(a.to, |h.run|, i)])
        else claimed.(asks := n.asks[i := a.(status := Done)])
    case AskOnward(i) =>
      var a := n.asks[i];
      var p := Look(n, a.status.left, a.status.round);
      n.(asks := n.asks[i := a.(status := Rest(p, a.status))] + (if p.asks == [] then [] else [Sent(a, i, p.asks[0])]))
    case Return(i) => n.(asks := n.asks[i := n.asks[i].(status := Done)])
    case Elsewhere(node, claim, seen) =>
      n.(histories := n.histories[node := Extended(n.HistoryOf(node), claim, seen)])
    case OtherLeg(node, begins) =>
      n.(others := n.others[node := if begins then n.OthersAt(node) + 1 else n.OthersAt(node) - 1])
    case Wait(nanos) => n.(now := n.now + nanos)
  }

  /** Where a run of the network stands, from one node's first asking; nothing when these events are no run. */
  ghost function Reached(w: World, start: nat, events: seq<Event>): Option<Net> {
    if events == [] then Some(Start(w, start)) else
      var before := Reached(w, start, events[..|events| - 1]);
      if before.Some? && Enabled(w, before.value, events[|events| - 1])
      then Some(Next(w, before.value, events[|events| - 1])) else None
  }

  // ---------------------------------------------------------------------------------------------
  // How many are asked
  // ---------------------------------------------------------------------------------------------

  function CountAt(asks: seq<Activation>, d: nat): nat {
    if asks == [] then 0 else CountAt(asks[..|asks| - 1], d) + (if asks[|asks| - 1].Depth() == d then 1 else 0)
  }

  /** How many asks an arrival may still cause. */
  function Slack(w: World, a: Activation): nat {
    match a.status
    case Pending => w.config.fanOut
    case Working(left, _) => |left|
    case Done => 0
  }

  function SlackAt(w: World, asks: seq<Activation>, d: nat): nat {
    if asks == [] then 0 else
      SlackAt(w, asks[..|asks| - 1], d) + (if asks[|asks| - 1].Depth() == d then Slack(w, asks[|asks| - 1]) else 0)
  }

  /** Asks made at one depth, and still to be made, are paid for by the arrivals at the depth above. */
  ghost predicate Paid(w: World, asks: seq<Activation>, d: nat) {
    CountAt(asks, d + 1) + SlackAt(w, asks, d) <= w.config.fanOut * CountAt(asks, d)
  }

  lemma {:induction false} Replacing(w: World, asks: seq<Activation>, i: nat, status: Status, d: nat)
    requires i < |asks|
    ensures var b := asks[i].(status := status);
      && CountAt(asks[i := b], d) == CountAt(asks, d)
      && SlackAt(w, asks[i := b], d) + (if b.Depth() == d then Slack(w, asks[i]) else 0)
         == SlackAt(w, asks, d) + (if b.Depth() == d then Slack(w, b) else 0)
  {
    var b, n := asks[i].(status := status), |asks| - 1;
    if i == n {
      assert asks[i := b][..n] == asks[..n];
    } else {
      Replacing(w, asks[..n], i, status, d);
      assert asks[i := b][..n] == asks[..n][i := b];
    }
  }

  lemma Adding(w: World, asks: seq<Activation>, a: Activation, d: nat)
    ensures CountAt(asks + [a], d) == CountAt(asks, d) + (if a.Depth() == d then 1 else 0)
    ensures SlackAt(w, asks + [a], d) == SlackAt(w, asks, d) + (if a.Depth() == d then Slack(w, a) else 0)
  {
    assert (asks + [a])[..|asks|] == asks;
  }

  // ---------------------------------------------------------------------------------------------
  // The shape of the tree
  // ---------------------------------------------------------------------------------------------

  /** The time an arrival was given. */
  function Allowance(b: HopBudget): nat { if b.time.Some? then b.time.value else MAX_FORWARDED_ASK_BUDGET }

  /** The first arrival is the question as it came in; every other is one hop below the arrival that sent it, from that
    * arrival's node, to a node that is neither that node nor the one that asked it, under the same identity
    * and with no more time than that arrival had. */
  ghost predicate WellSent(w: World, asks: seq<Activation>, i: nat)
    requires i < |asks|
  {
    var a := asks[i];
    && a.budget.Valid() && a.budget.hops.Some? && a.budget.askId == w.first.askId
       && w.first.Used() <= a.Depth() <= w.config.hopCap
    && (i == 0 ==> a.from == w.asker && a.to == w.origin && a.budget == w.first)
    && (i > 0 ==>
          && a.parent < i && a.from == Some(asks[a.parent].to) && a.Depth() == asks[a.parent].Depth() + 1
          && a.to != asks[a.parent].to && Some(a.to) != asks[a.parent].from
          && a.budget.time.Some? && a.budget.time.value <= Allowance(asks[a.parent].budget))
  }

  ghost predicate WellWorking(w: World, now: nat, a: Activation) {
    a.status.Working? ==>
      && a.status.round.depth == a.Depth() + 1 <= w.config.hopCap && a.status.round.askId == w.first.askId
      && a.status.round.deadline <= now + Allowance(a.budget)
      && (forall p :: p in a.status.left ==> p != a.to && Some(p) != a.from)
  }

  ghost predicate Counted(w: World, asks: seq<Activation>) {
    CountAt(asks, w.first.Used()) == 1 && forall d: nat :: d >= w.first.Used() ==> Paid(w, asks, d)
  }

  ghost predicate Shaped(w: World, now: nat, asks: seq<Activation>) {
    asks != [] && forall i :: 0 <= i < |asks| ==> WellSent(w, asks, i) && WellWorking(w, now, asks[i])
  }

  ghost predicate Inv(w: World, n: Net) { w.Valid() && Counted(w, n.asks) && Shaped(w, n.now, n.asks) }

  lemma Restatus(w: World, asks: seq<Activation>, i: nat, status: Status)
    requires i < |asks| && Counted(w, asks) && Slack(w, asks[i].(status := status)) <= Slack(w, asks[i])
    ensures Counted(w, asks[i := asks[i].(status := status)])
  {
    var b := asks[i := asks[i].(status := status)];
    Replacing(w, asks, i, status, w.first.Used());
    forall d: nat | d >= w.first.Used() ensures Paid(w, b, d) {
      assert Paid(w, asks, d);
      Replacing(w, asks, i, status, d);
      Replacing(w, asks, i, status, d + 1);
    }
  }

  lemma OneMore(fanOut: nat, count: nat)
    ensures fanOut * (count + 1) == fanOut * count + fanOut
  {
  }

  lemma SendOne(w: World, asks: seq<Activation>, i: nat, status: Status, child: Activation)
    requires i < |asks| && Counted(w, asks) && Slack(w, asks[i].(status := status)) < Slack(w, asks[i])
    requires child.Depth() == asks[i].Depth() + 1 > w.first.Used() && child.status.Pending?
    ensures Counted(w, asks[i := asks[i].(status := status)] + [child])
  {
    var replaced := asks[i := asks[i].(status := status)];
    Replacing(w, asks, i, status, w.first.Used());
    Adding(w, replaced, child, w.first.Used());
    forall d: nat | d >= w.first.Used() ensures Paid(w, replaced + [child], d) {
      assert Paid(w, asks, d);
      Replacing(w, asks, i, status, d);
      Replacing(w, asks, i, status, d + 1);
      Adding(w, replaced, child, d);
      Adding(w, replaced, child, d + 1);
      OneMore(w.config.fanOut, CountAt(asks, d));
    }
  }

  lemma Reshaped(w: World, now: nat, asks: seq<Activation>, i: nat, status: Status)
    requires i < |asks| && Shaped(w, now, asks) && WellWorking(w, now, asks[i].(status := status))
    ensures Shaped(w, now, asks[i := asks[i].(status := status)])
  {
    var b := asks[i := asks[i].(status := status)];
    forall j | 0 <= j < |b| ensures WellSent(w, b, j) && WellWorking(w, now, b[j]) {
      assert WellSent(w, asks, j) && WellWorking(w, now, asks[j]);
    }
  }

  lemma Grown(w: World, now: nat, asks: seq<Activation>, child: Activation)
    requires Shaped(w, now, asks) && child.status.Pending? && WellSent(w, asks + [child], |asks|)
    ensures Shaped(w, now, asks + [child])
  {
    var b := asks + [child];
    forall j | 0 <= j < |b| ensures WellSent(w, b, j) && WellWorking(w, now, b[j]) {
      if j < |asks| { assert WellSent(w, asks, j) && WellWorking(w, now, asks[j]); }
    }
  }

  /** A delivered question is worked on within the contract, whatever the node decides. */
  lemma DeliveredWell(w: World, n: Net, i: nat, env: Env)
    requires w.Valid() && i < |n.asks| && WellSent(w, n.asks, i) && env.Bounds() == w.config && env.Reaches()
    requires env.Honours(n.asks[i].budget, n.asks[i].from, Some(n.asks[i].to))
    ensures var round := RoundOf(n.asks[i].budget, env, n.now);
      WellWorking(w, n.now, n.asks[i].(status := Working(env.decision.peers, round)))
    ensures |env.decision.peers| <= w.config.fanOut
  {
    TimeIsBounded(n.asks[i].budget, env.decision.hopsRemaining, w.config.fanOut);
    OneHopFurther(n.asks[i].budget, w.config.hopCap, 0, 0);
  }

  lemma DeliverKeepsInv(w: World, n: Net, e: Event)
    requires Inv(w, n) && Enabled(w, n, e) && e.Deliver?
    ensures Inv(w, Next(w, n, e))
  {
    var i, env := e.i, e.env;
    assert WellSent(w, n.asks, i);
    var status := Done;
    if env.Reaches() {
      DeliveredWell(w, n, i, env);
      if e.granted && env.slotFree { status := Working(env.decision.peers, RoundOf(n.asks[i].budget, env, n.now)); }
    }
    Restatus(w, n.asks, i, status);
    Reshaped(w, n.now, n.asks, i, status);
    assert Next(w, n, e).asks == n.asks[i := n.asks[i].(status := status)];
  }

  lemma SentFacts(w: World, now: nat, a: Activation, i: nat, ask: Ask)
    requires w.Valid() && a.budget.Valid() && a.budget.hops.Some? && a.budget.askId == w.first.askId
    requires WellWorking(w, now, a) && a.status.Working?
    requires ask.depth == a.status.round.depth && ask.askId == a.status.round.askId
    requires ask.grant == SaturatingSub(a.status.round.deadline, now)
    ensures var child := Sent(a, i, ask);
      && child.budget.Valid() && child.budget.hops.Some? && child.budget.askId == w.first.askId
      && child.Depth() == a.Depth() + 1 <= w.config.hopCap
      && child.budget.time.Some? && child.budget.time.value <= Allowance(a.budget)
  {
    OneHopFurther(a.budget, w.config.hopCap, ask.grant, 0);
  }

  lemma SentWell(w: World, n: Net, i: nat, ask: Ask, status: Status)
    requires Inv(w, n) && i < |n.asks| && n.asks[i].status.Working? && n.asks[i].status.left != []
    requires Look(n, n.asks[i].status.left, n.asks[i].status.round).asks == [ask]
    ensures var asks := n.asks[i := n.asks[i].(status := status)]; WellSent(w, asks + [Sent(n.asks[i], i, ask)], |asks|)
    ensures Sent(n.asks[i], i, ask).Depth() == n.asks[i].Depth() + 1
  {
    var a := n.asks[i];
    assert WellSent(w, n.asks, i) && WellWorking(w, n.now, a);
    assert a.status.left[0] in a.status.left;
    var asked := Look(n, a.status.left, a.status.round).asks;
    assert asked[0] == ask;
    SentFacts(w, n.now, a, i, ask);
    PlacedWell(w, n.asks[i := a.(status := status)], i, Sent(a, i, ask));
  }

  lemma PlacedWell(w: World, asks: seq<Activation>, i: nat, child: Activation)
    requires i < |asks| && child.parent == i && child.from == Some(asks[i].to) && child.to != asks[i].to
    requires w.first.Used() <= asks[i].Depth()
    requires Some(child.to) != asks[i].from && child.budget.Valid() && child.budget.hops.Some?
      && child.budget.askId == w.first.askId
    requires child.Depth() == asks[i].Depth() + 1 <= w.config.hopCap
    requires child.budget.time.Some? && child.budget.time.value <= Allowance(asks[i].budget)
    ensures WellSent(w, asks + [child], |asks|)
  {
    assert (asks + [child])[|asks|] == child && (asks + [child])[i] == asks[i];
  }

  lemma AskKeepsCounts(w: World, n: Net, i: nat)
    requires Inv(w, n) && Enabled(w, n, AskOnward(i))
    ensures Counted(w, Next(w, n, AskOnward(i)).asks)
  {
    var a := n.asks[i];
    var p := Look(n, a.status.left, a.status.round);
    var status := Rest(p, a.status);
    if p.asks == [] {
      Restatus(w, n.asks, i, status);
      assert n.asks[i := a.(status := status)] + [] == n.asks[i := a.(status := status)];
    } else {
      assert p.asks == [p.asks[0]];
      SentWell(w, n, i, p.asks[0], status);
      assert WellSent(w, n.asks, i);
      SendOne(w, n.asks, i, status, Sent(a, i, p.asks[0]));
    }
  }

  lemma AskKeepsShape(w: World, n: Net, i: nat)
    requires Inv(w, n) && Enabled(w, n, AskOnward(i))
    ensures Shaped(w, n.now, Next(w, n, AskOnward(i)).asks)
  {
    var a := n.asks[i];
    var p := Look(n, a.status.left, a.status.round);
    var status := Rest(p, a.status);
    assert WellWorking(w, n.now, a.(status := status)) by { assert WellWorking(w, n.now, a); }
    Reshaped(w, n.now, n.asks, i, status);
    var replaced := n.asks[i := a.(status := status)];
    if p.asks == [] {
      assert replaced + [] == replaced;
    } else {
      assert p.asks == [p.asks[0]];
      SentWell(w, n, i, p.asks[0], status);
      Grown(w, n.now, replaced, Sent(a, i, p.asks[0]));
    }
  }

  lemma AskKeepsInv(w: World, n: Net, e: Event)
    requires Inv(w, n) && Enabled(w, n, e) && e.AskOnward?
    ensures Inv(w, Next(w, n, e))
  {
    AskKeepsCounts(w, n, e.i);
    AskKeepsShape(w, n, e.i);
  }

  lemma StepKeepsInv(w: World, n: Net, e: Event)
    requires Inv(w, n) && Enabled(w, n, e)
    ensures Inv(w, Next(w, n, e))
  {
    match e {
      case Deliver(_, _, _, _) => DeliverKeepsInv(w, n, e);
      case AskOnward(_) => AskKeepsInv(w, n, e);
      case Return(i) =>
        Restatus(w, n.asks, i, Done);
        Reshaped(w, n.now, n.asks, i, Done);
      case Elsewhere(_, _, _) =>
      case OtherLeg(_, _) =>
      case Wait(nanos) =>
        forall i | 0 <= i < |n.asks| ensures WellSent(w, n.asks, i) && WellWorking(w, n.now + nanos, n.asks[i]) {
          assert WellSent(w, n.asks, i) && WellWorking(w, n.now, n.asks[i]);
        }
    }
  }

  lemma {:induction false} EveryRunKeepsInv(w: World, start: nat, events: seq<Event>)
    requires w.Valid() && Reached(w, start, events).Some?
    ensures Inv(w, Reached(w, start, events).value)
  {
    if events == [] {
      var asks := Start(w, start).asks;
      assert asks[..0] == [];
      assert CountAt(asks[..0], w.first.Used()) == 0;
      forall d: nat | d >= w.first.Used() ensures Paid(w, asks, d) {
        assert CountAt(asks[..0], d) == 0 && CountAt(asks[..0], d + 1) == 0 && SlackAt(w, asks[..0], d) == 0;
      }
    } else {
      var n := |events| - 1;
      EveryRunKeepsInv(w, start, events[..n]);
      StepKeepsInv(w, Reached(w, start, events[..n]).value, events[n]);
    }
  }

  // ---------------------------------------------------------------------------------------------
  // The exponents
  // ---------------------------------------------------------------------------------------------

  function Pow(b: nat, e: nat): nat { if e == 0 then 1 else b * Pow(b, e - 1) }

  /** `b + b^2 + ... + b^h`. */
  function Recruits(b: nat, h: nat): nat { if h == 0 then 0 else Recruits(b, h - 1) + Pow(b, h) }

  lemma Scaled(f: nat, a: nat, b: nat)
    requires a <= b
    ensures f * a <= f * b
  {
    assert f * b == f * a + f * (b - a);
  }

  lemma {:induction false} PaidMeansPowers(w: World, asks: seq<Activation>, k: nat)
    requires Counted(w, asks)
    ensures CountAt(asks, w.first.Used() + k) <= Pow(w.config.fanOut, k)
  {
    if k == 0 {
    } else {
      var d := w.first.Used() + k - 1;
      PaidMeansPowers(w, asks, k - 1);
      assert Paid(w, asks, d);
      Scaled(w.config.fanOut, CountAt(asks, d), Pow(w.config.fanOut, k - 1));
    }
  }

  /** The arrivals at depths `base` to `base + k`. */
  function CountWithin(asks: seq<Activation>, base: nat, k: nat): nat {
    if k == 0 then CountAt(asks, base) else CountWithin(asks, base, k - 1) + CountAt(asks, base + k)
  }

  lemma {:induction false} CountWithinAdding(asks: seq<Activation>, base: nat, k: nat)
    requires asks != []
    ensures CountWithin(asks, base, k)
         == CountWithin(asks[..|asks| - 1], base, k) + (if base <= asks[|asks| - 1].Depth() <= base + k then 1 else 0)
  {
    if k == 0 {
    } else {
      CountWithinAdding(asks, base, k - 1);
    }
  }

  lemma {:induction false} CountWithinNone(base: nat, k: nat)
    ensures CountWithin([], base, k) == 0
  {
    if k == 0 {
    } else {
      CountWithinNone(base, k - 1);
    }
  }

  lemma {:induction false} AllAreCounted(asks: seq<Activation>, base: nat, k: nat)
    requires forall i :: 0 <= i < |asks| ==> base <= asks[i].Depth() <= base + k
    ensures CountWithin(asks, base, k) == |asks|
  {
    if asks == [] {
      CountWithinNone(base, k);
    } else {
      AllAreCounted(asks[..|asks| - 1], base, k);
      CountWithinAdding(asks, base, k);
    }
  }

  lemma {:induction false} CountsSumUp(w: World, asks: seq<Activation>, k: nat)
    requires Counted(w, asks)
    ensures CountWithin(asks, w.first.Used(), k) <= 1 + Recruits(w.config.fanOut, k)
  {
    if k == 0 {
    } else {
      CountsSumUp(w, asks, k - 1);
      PaidMeansPowers(w, asks, k);
    }
  }

  /** In every run: `k` hops from where it came in, the question arrives at most fan-out to the `k` times, never
    * deeper than the hop cap; and all the arrivals but the first - so all the nodes recruited - number at most
    * the sum of those powers over the hops it had left. */
  lemma QuestionsAreBounded(w: World, start: nat, events: seq<Event>, k: nat)
    requires w.Valid() && Reached(w, start, events).Some?
    ensures var asks := Reached(w, start, events).value.asks;
      && CountAt(asks, w.first.Used() + k) <= Pow(w.config.fanOut, k)
      && (forall i :: 0 <= i < |asks| ==> w.first.Used() <= asks[i].Depth() <= w.config.hopCap)
      && 1 <= |asks| <= 1 + Recruits(w.config.fanOut, w.HopsLeft())
  {
    EveryRunKeepsInv(w, start, events);
    var asks := Reached(w, start, events).value.asks;
    PaidMeansPowers(w, asks, k);
    forall i | 0 <= i < |asks| ensures w.first.Used() <= asks[i].Depth() <= w.config.hopCap {
      assert WellSent(w, asks, i);
    }
    AllAreCounted(asks, w.first.Used(), w.HopsLeft());
    CountsSumUp(w, asks, w.HopsLeft());
  }

  lemma {:induction false} RecruitsGrow(b: nat, h: nat, k: nat)
    requires h <= k
    ensures Recruits(b, h) <= Recruits(b, k)
  {
    if h == k {
    } else {
      RecruitsGrow(b, h, k - 1);
    }
  }

  lemma TwelveRecruits()
    ensures Pow(3, 1) == 3 && Pow(3, 2) == 9 && Recruits(3, 2) == 12
  {
    assert Pow(3, 1) == 3 * Pow(3, 0) && Pow(3, 2) == 3 * Pow(3, 1);
    assert Recruits(3, 1) == Recruits(3, 0) + Pow(3, 1) && Recruits(3, 2) == Recruits(3, 1) + Pow(3, 2);
  }

  /** The figure the documentation quotes: with three peers a hop and two hops, one question recruits at most
    * twelve nodes - and not nine, which is only its last hop. */
  lemma TwelveAtTheDefaults(w: World, start: nat, events: seq<Event>)
    requires w.Valid() && w.config.fanOut == 3 && w.config.hopCap == 2 && Reached(w, start, events).Some?
    ensures |Reached(w, start, events).value.asks| - 1 <= 12
    ensures CountAt(Reached(w, start, events).value.asks, 2) <= 9
  {
    QuestionsAreBounded(w, start, events, 2 - w.first.Used());
    RecruitsGrow(3, w.HopsLeft(), 2);
    TwelveRecruits();
  }

  /** In every run, every arrival but the first is one hop below the one that sent it, under the same
    * identity, never at the node that sent it nor at the one that asked that node, and with no more time
    * than its sender was given - so never more than the ceiling, anywhere in the tree. */
  lemma EveryHopIsSound(w: World, start: nat, events: seq<Event>, i: nat)
    requires w.Valid() && Reached(w, start, events).Some? && 0 < i < |Reached(w, start, events).value.asks|
    ensures var asks := Reached(w, start, events).value.asks;
      var a := asks[i];
      && a.parent < i && a.Depth() == asks[a.parent].Depth() + 1 && a.budget.askId == w.first.askId
      && a.from == Some(asks[a.parent].to) && a.to != asks[a.parent].to && Some(a.to) != asks[a.parent].from
      && a.budget.time.Some? && a.budget.time.value <= MAX_FORWARDED_ASK_BUDGET
      && (asks[a.parent].budget.time.Some? ==> a.budget.time.value <= asks[a.parent].budget.time.value)
  {
    EveryRunKeepsInv(w, start, events);
    var asks := Reached(w, start, events).value.asks;
    assert WellSent(w, asks, i);
    assert WellSent(w, asks, asks[i].parent);
  }

  // ---------------------------------------------------------------------------------------------
  // It ends
  // ---------------------------------------------------------------------------------------------

  /** The most steps handling one arrival can still take, itself and everything below it, with `h` hops left. */
  function Size(fanOut: nat, h: nat): nat {
    if h == 0 then 1 else 1 + Times(fanOut, 1 + Size(fanOut, h - 1))
  }

  /** `k` times `unit`, as a sum. */
  function Times(k: nat, unit: nat): nat { if k == 0 then 0 else Times(k - 1, unit) + unit }

  lemma {:induction false} TimesGrows(k: nat, m: nat, unit: nat)
    requires k <= m
    ensures Times(k, unit) <= Times(m, unit)
  {
    if k == m {
    } else {
      TimesGrows(k, m - 1, unit);
    }
  }

  function Weight(w: World, a: Activation): nat {
    var h := SaturatingSub(w.config.hopCap, a.Depth());
    match a.status
    case Pending => Size(w.config.fanOut, h)
    case Working(left, _) => Times(|left|, 1 + Size(w.config.fanOut, SaturatingSub(h, 1)))
    case Done => 0
  }

  function WeightOf(w: World, asks: seq<Activation>): nat {
    if asks == [] then 0 else WeightOf(w, asks[..|asks| - 1]) + Weight(w, asks[|asks| - 1])
  }

  lemma {:induction false} Reweighing(w: World, asks: seq<Activation>, i: nat, b: Activation)
    requires i < |asks|
    ensures WeightOf(w, asks[i := b]) + Weight(w, asks[i]) == WeightOf(w, asks) + Weight(w, b)
  {
    var n := |asks| - 1;
    if i == n {
      assert asks[i := b][..n] == asks[..n];
    } else {
      Reweighing(w, asks[..n], i, b);
      assert asks[i := b][..n] == asks[..n][i := b];
    }
  }

  /** A step of the protocol, as opposed to a leg returning, time passing or other questions being asked. */
  predicate IsStep(e: Event) { e.Deliver? || e.AskOnward? }

  function Steps(events: seq<Event>): nat {
    if events == [] then 0 else Steps(events[..|events| - 1]) + (if IsStep(events[|events| - 1]) then 1 else 0)
  }

  lemma WorkingWeighsLess(w: World, a: Activation, left: seq<Node>, round: Round)
    requires a.status.Pending? && |left| <= w.config.fanOut && a.Depth() < w.config.hopCap
    ensures Weight(w, a.(status := Working(left, round))) < Weight(w, a)
  {
    var h := w.config.hopCap - a.Depth();
    TimesGrows(|left|, w.config.fanOut, 1 + Size(w.config.fanOut, h - 1));
  }

  lemma RestWeighsLess(w: World, a: Activation, p: Progress)
    requires a.status.Working? && a.status.left != [] && a.Depth() < w.config.hopCap
    ensures Weight(w, a.(status := Rest(p, a.status))) < Weight(w, a)
    ensures !p.outOfTime ==>
      Weight(w, a.(status := Rest(p, a.status)))
        + Size(w.config.fanOut, SaturatingSub(w.config.hopCap, a.Depth() + 1)) < Weight(w, a)
  {
    assert Weight(w, a) == Times(|a.status.left|, 1 + Size(w.config.fanOut, w.config.hopCap - a.Depth() - 1));
  }

  lemma PendingWeighs(w: World, a: Activation)
    requires a.status.Pending?
    ensures Weight(w, a) == Size(w.config.fanOut, SaturatingSub(w.config.hopCap, a.Depth())) >= 1
  {
  }

  lemma DeliverWeighs(w: World, n: Net, e: Event)
    requires Inv(w, n) && Enabled(w, n, e) && e.Deliver?
    ensures WeightOf(w, Next(w, n, e).asks) < WeightOf(w, n.asks)
  {
    var i, env := e.i, e.env;
    var a := n.asks[i];
    assert WellSent(w, n.asks, i);
    var status := Done;
    PendingWeighs(w, a);
    if env.Reaches() && e.granted && env.slotFree {
      DeliveredWell(w, n, i, env);
      status := Working(env.decision.peers, RoundOf(a.budget, env, n.now));
      WorkingWeighsLess(w, a, env.decision.peers, RoundOf(a.budget, env, n.now));
    }
    assert Next(w, n, e).asks == n.asks[i := a.(status := status)];
    Reweighing(w, n.asks, i, a.(status := status));
  }

  /** Looking at the next peer: what is left to do here and below weighs less than before. */
  lemma LookWeighsLess(w: World, n: Net, i: nat)
    requires Inv(w, n) && Enabled(w, n, AskOnward(i))
    requires Look(n, n.asks[i].status.left, n.asks[i].status.round).asks != []
    ensures var a := n.asks[i];
      var p := Look(n, a.status.left, a.status.round);
      Weight(w, a.(status := Rest(p, a.status))) + Weight(w, Sent(a, i, p.asks[0])) < Weight(w, a)
  {
    var a := n.asks[i];
    var p := Look(n, a.status.left, a.status.round);
    HopsAreLeft(w, n, i);
    RestWeighsLess(w, a, p);
    SentWeighs(w, n, i, p.asks[0], Rest(p, a.status));
  }

  lemma HopsAreLeft(w: World, n: Net, i: nat)
    requires Inv(w, n) && i < |n.asks| && n.asks[i].status.Working?
    ensures n.asks[i].Depth() < w.config.hopCap
  {
    assert WellSent(w, n.asks, i) && WellWorking(w, n.now, n.asks[i]);
  }

  lemma AskWeighs(w: World, n: Net, e: Event)
    requires Inv(w, n) && Enabled(w, n, e) && e.AskOnward?
    ensures WeightOf(w, Next(w, n, e).asks) < WeightOf(w, n.asks)
  {
    var a := n.asks[e.i];
    var p := Look(n, a.status.left, a.status.round);
    if p.asks == [] {
      HopsAreLeft(w, n, e.i);
      RestWeighsLess(w, a, p);
      AskedOnwardWeighs(w, n.asks, e.i, a.(status := Rest(p, a.status)), []);
    } else {
      LookWeighsLess(w, n, e.i);
      AskedOnwardWeighs(w, n.asks, e.i, a.(status := Rest(p, a.status)), [Sent(a, e.i, p.asks[0])]);
    }
  }

  lemma AskedOnwardWeighs(w: World, asks: seq<Activation>, i: nat, rest: Activation, children: seq<Activation>)
    requires i < |asks| && |children| <= 1
    requires Weight(w, rest) + (if children == [] then 0 else Weight(w, children[0])) < Weight(w, asks[i])
    ensures WeightOf(w, asks[i := rest] + children) < WeightOf(w, asks)
  {
    Reweighing(w, asks, i, rest);
    if children == [] {
      assert asks[i := rest] + children == asks[i := rest];
    } else {
      assert children == [children[0]];
      WeightAdded(w, asks[i := rest], children[0]);
    }
  }

  lemma SentWeighs(w: World, n: Net, i: nat, ask: Ask, status: Status)
    requires Inv(w, n) && i < |n.asks| && n.asks[i].status.Working? && n.asks[i].status.left != []
    requires var p := Look(n, n.asks[i].status.left, n.asks[i].status.round); p.asks != [] && p.asks[0] == ask
    ensures Weight(w, Sent(n.asks[i], i, ask))
      == Size(w.config.fanOut, SaturatingSub(w.config.hopCap, n.asks[i].Depth() + 1))
  {
    var asked := Look(n, n.asks[i].status.left, n.asks[i].status.round).asks;
    assert asked == [ask];
    SentWell(w, n, i, ask, status);
    PendingWeighs(w, Sent(n.asks[i], i, ask));
  }

  lemma WeightAdded(w: World, asks: seq<Activation>, a: Activation)
    ensures WeightOf(w, asks + [a]) == WeightOf(w, asks) + Weight(w, a)
  {
    assert (asks + [a])[..|asks|] == asks;
  }

  /** Every run ends: whatever the graph and the interleaving, the protocol takes at most a fixed number of
    * steps, and fewer the more of the tree is already done. */
  lemma {:induction false} EveryRunEnds(w: World, start: nat, events: seq<Event>)
    requires w.Valid() && Reached(w, start, events).Some?
    ensures Steps(events) + WeightOf(w, Reached(w, start, events).value.asks) <= Size(w.config.fanOut, w.HopsLeft())
  {
    if events == [] {
      var asks := Start(w, start).asks;
      assert asks[..0] == [] && WeightOf(w, asks[..0]) == 0;
    } else {
      var n, e := Reached(w, start, events[..|events| - 1]).value, events[|events| - 1];
      EveryRunEnds(w, start, events[..|events| - 1]);
      EveryRunKeepsInv(w, start, events[..|events| - 1]);
      match e {
        case Deliver(_, _, _, _) => DeliverWeighs(w, n, e);
        case AskOnward(_) => AskWeighs(w, n, e);
        case Return(i) => Reweighing(w, n.asks, i, n.asks[i].(status := Done));
        case Elsewhere(_, _, _) =>
        case OtherLeg(_, _) =>
        case Wait(_) =>
      }
    }
  }

  // ---------------------------------------------------------------------------------------------
  // At most once
  // ---------------------------------------------------------------------------------------------

  ghost predicate Kept(h: History, start: nat, now: nat) {
    && IsRun(h.run, h.states, MAX_FORWARDED_ASK_BUDGET, ASK_SEEN_CAPACITY)
    && forall i :: 0 <= i < |h.run| ==> start <= h.run[i].now <= now
  }

  /** This forwarding stands on its own granted claim for the question. */
  ghost predicate Backed(w: World, n: Net, f: Forwarding) {
    var h := n.HistoryOf(f.node);
    f.claim < |h.run| && h.run[f.claim].granted && h.run[f.claim].question == (w.first.askId, w.content)
  }

  ghost predicate Walked(w: World, start: nat, n: Net) {
    && start <= n.now && (forall node :: Kept(n.HistoryOf(node), start, n.now))
    && (forall x :: 0 <= x < |n.forwards| ==> Backed(w, n, n.forwards[x]))
    && (forall x, y :: 0 <= x < y < |n.forwards| && n.forwards[x].node == n.forwards[y].node ==>
          n.forwards[x].claim < n.forwards[y].claim)
  }

  lemma ClaimKeepsHistory(h: History, start: nat, now: nat, claim: Claim, seen: Seen)
    requires Kept(h, start, now) && start <= now && claim.now == now && Claims(h, claim, seen)
    ensures Kept(Extended(h, claim, seen), start, now)
  {
    var g := Extended(h, claim, seen);
    forall i | 0 <= i < |g.run| ensures StepAt(g.run, g.states, MAX_FORWARDED_ASK_BUDGET, ASK_SEEN_CAPACITY, i) {
      if i < |h.run| { assert StepAt(h.run, h.states, MAX_FORWARDED_ASK_BUDGET, ASK_SEEN_CAPACITY, i); }
    }
  }

  /** A claim at one node leaves every history kept and every forwarding backed. */
  lemma ClaimKeepsWalked(w: World, start: nat, n: Net, node: Node, claim: Claim, seen: Seen)
    requires Walked(w, start, n) && claim.now == n.now && Claims(n.HistoryOf(node), claim, seen)
    ensures Walked(w, start, n.(histories := n.histories[node := Extended(n.HistoryOf(node), claim, seen)]))
  {
    var b := n.(histories := n.histories[node := Extended(n.HistoryOf(node), claim, seen)]);
    ClaimKeepsHistory(n.HistoryOf(node), start, n.now, claim, seen);
    forall x ensures Kept(b.HistoryOf(x), start, b.now) {
      assert Kept(n.HistoryOf(x), start, n.now);
      if x != node { assert b.HistoryOf(x) == n.HistoryOf(x); }
    }
    forall x | 0 <= x < |b.forwards| ensures Backed(w, b, b.forwards[x]) {
      assert Backed(w, n, n.forwards[x]);
      if n.forwards[x].node != node { assert b.HistoryOf(n.forwards[x].node) == n.HistoryOf(n.forwards[x].node); }
    }
  }

  lemma DeliverKeepsWalked(w: World, start: nat, n: Net, e: Event)
    requires Inv(w, n) && Walked(w, start, n) && Enabled(w, n, e) && e.Deliver?
    ensures Walked(w, start, Next(w, n, e))
  {
    var a := n.asks[e.i];
    assert WellSent(w, n.asks, e.i);
    if e.env.Reaches() {
      var h := n.HistoryOf(a.to);
      var claim := Claim(QuestionOf(w, a), n.now, e.granted);
      ClaimKeepsWalked(w, start, n, a.to, claim, e.seen);
      var claimed := n.(histories := n.histories[a.to := Extended(h, claim, e.seen)]);
      var b := Next(w, n, e);
      assert b.histories == claimed.histories && b.now == claimed.now;
      SameHistories(w, start, claimed, b);
      forall x | 0 <= x < |n.forwards| && n.forwards[x].node == a.to ensures n.forwards[x].claim < |h.run| {
        assert Backed(w, n, n.forwards[x]);
      }
    } else {
      SameHistories(w, start, n, Next(w, n, e));
    }
  }

  lemma SameHistories(w: World, start: nat, n: Net, b: Net)
    requires Walked(w, start, n) && b.histories == n.histories && b.now >= n.now
    ensures forall node :: Kept(b.HistoryOf(node), start, b.now)
    ensures forall x :: 0 <= x < |n.forwards| ==> Backed(w, b, n.forwards[x])
  {
    forall node ensures Kept(b.HistoryOf(node), start, b.now) { assert Kept(n.HistoryOf(node), start, n.now); }
    forall x | 0 <= x < |n.forwards| ensures Backed(w, b, n.forwards[x]) { assert Backed(w, n, n.forwards[x]); }
  }

  lemma {:induction false} EveryRunIsWalked(w: World, start: nat, events: seq<Event>)
    requires w.Valid() && Reached(w, start, events).Some?
    ensures Walked(w, start, Reached(w, start, events).value)
  {
    if events == [] {
    } else {
      var n, e := Reached(w, start, events[..|events| - 1]).value, events[|events| - 1];
      EveryRunIsWalked(w, start, events[..|events| - 1]);
      EveryRunKeepsInv(w, start, events[..|events| - 1]);
      match e {
        case Deliver(_, _, _, _) => DeliverKeepsWalked(w, start, n, e);
        case AskOnward(_) => SameHistories(w, start, n, Next(w, n, e));
        case Return(_) => SameHistories(w, start, n, Next(w, n, e));
        case Elsewhere(node, claim, seen) => ClaimKeepsWalked(w, start, n, node, claim, seen);
        case OtherLeg(_, _) => SameHistories(w, start, n, Next(w, n, e));
        case Wait(_) => SameHistories(w, start, n, Next(w, n, e));
      }
    }
  }

  /** A node forwards the question twice only when the largest budget any hop may hold ran out in between, or
    * when its seen-set granted more asks than it can hold since the first time. */
  lemma ForwardedTwiceOnlyWhenForgotten(w: World, start: nat, events: seq<Event>, x: nat, y: nat)
    requires w.Valid() && Reached(w, start, events).Some?
    requires x < y < |Reached(w, start, events).value.forwards|
    requires Reached(w, start, events).value.forwards[x].node == Reached(w, start, events).value.forwards[y].node
    ensures var n := Reached(w, start, events).value;
      var run, i, j := n.HistoryOf(n.forwards[x].node).run, n.forwards[x].claim, n.forwards[y].claim;
      && i < j < |run|
      && (run[j].now - run[i].now >= MAX_FORWARDED_ASK_BUDGET
          || GrantedSince(run, j, run[i].now) >= ASK_SEEN_CAPACITY + 1)
  {
    EveryRunIsWalked(w, start, events);
    var n := Reached(w, start, events).value;
    var h := n.HistoryOf(n.forwards[x].node);
    assert Backed(w, n, n.forwards[x]) && Backed(w, n, n.forwards[y]);
    assert Kept(h, start, n.now);
    WalkedTwiceOnlyWhenForgotten(h.run, h.states, MAX_FORWARDED_ASK_BUDGET, ASK_SEEN_CAPACITY, n.forwards[x].claim,
                                 n.forwards[y].claim);
  }

  // ---------------------------------------------------------------------------------------------
  // Slots
  // ---------------------------------------------------------------------------------------------

  lemma {:induction false} LegsReplaced(asks: seq<Activation>, i: nat, status: Status, node: Node)
    requires i < |asks|
    ensures var b := asks[i].(status := status);
      LegsAt(asks[i := b], node) + HoldsSlot(asks[i], node) == LegsAt(asks, node) + HoldsSlot(b, node)
  {
    var b, n := asks[i].(status := status), |asks| - 1;
    if i == n {
      assert asks[i := b][..n] == asks[..n];
    } else {
      LegsReplaced(asks[..n], i, status, node);
      assert asks[i := b][..n] == asks[..n][i := b];
    }
  }

  /** What handling an arrival makes of it. */
  function StatusAfter(n: Net, i: nat, env: Env, granted: bool): Status
    requires i < |n.asks|
  {
    if env.Reaches() && granted && env.slotFree
    then Working(env.decision.peers, RoundOf(n.asks[i].budget, env, n.now)) else Done
  }

  lemma StepKeepsSlots(w: World, n: Net, e: Event, node: Node)
    requires Enabled(w, n, e) && n.Held(node) <= MAX_CONCURRENT_FORWARDED_ASKS
    ensures Next(w, n, e).Held(node) <= MAX_CONCURRENT_FORWARDED_ASKS
  {
    match e {
      case Deliver(i, env, granted, _) => LegsReplaced(n.asks, i, StatusAfter(n, i, env, granted), node);
      case AskOnward(i) =>
        var a := n.asks[i];
        var p := Look(n, a.status.left, a.status.round);
        var replaced := n.asks[i := a.(status := Rest(p, a.status))];
        LegsReplaced(n.asks, i, Rest(p, a.status), node);
        if p.asks == [] {
          assert replaced + [] == replaced;
        } else {
          assert (replaced + [Sent(a, i, p.asks[0])])[..|replaced|] == replaced;
        }
      case Return(i) => LegsReplaced(n.asks, i, Done, node);
      case Elsewhere(_, _, _) =>
      case OtherLeg(_, _) =>
      case Wait(_) =>
    }
  }

  /** In every run, on every node, at most thirty-two legs are in flight at once: those of this question and those
    * of all the others, whoever asked for them. */
  lemma {:induction false} SlotsAreBounded(w: World, start: nat, events: seq<Event>, node: Node)
    requires Reached(w, start, events).Some?
    ensures Reached(w, start, events).value.Held(node) <= MAX_CONCURRENT_FORWARDED_ASKS
  {
    if events == [] {
      assert Start(w, start).asks[..0] == [] && LegsAt(Start(w, start).asks[..0], node) == 0;
    } else {
      var n := |events| - 1;
      SlotsAreBounded(w, start, events[..n], node);
      StepKeepsSlots(w, Reached(w, start, events[..n]).value, events[n], node);
    }
  }

  /** Cutting the leg's loop at each ask changes nothing: as long as no time passes but what the exchanges
    * take, each look is the loop's own next turn. */
  lemma LookIsTheLoopsTurn(n: Net, peers: seq<Node>, k: nat, start: nat, r: Round)
    requires k < |peers| && AskAll(peers[..k], start, r).now == n.now && !AskAll(peers[..k], start, r).outOfTime
    ensures var before, after := AskAll(peers[..k], start, r), AskAll(peers[..k + 1], start, r);
      var look := Look(n, peers[k..], r);
      after.asks == before.asks + look.asks && after.outOfTime == look.outOfTime && after.now == look.now
  {
    assert peers[..k + 1][..k] == peers[..k];
  }

  lemma {:induction false} SizeGrows(fanOut: nat, h: nat, k: nat)
    requires h <= k
    ensures Size(fanOut, h) <= Size(fanOut, k)
  {
    if h == k {
    } else {
      SizeGrows(fanOut, h, k - 1);
      SizeOneMore(fanOut, k - 1);
    }
  }

  lemma {:induction false} SizeOneMore(fanOut: nat, h: nat)
    ensures Size(fanOut, h) <= Size(fanOut, h + 1)
  {
    if h == 0 {
    } else {
      SizeOneMore(fanOut, h - 1);
      LargerUnit(fanOut, 1 + Size(fanOut, h - 1), 1 + Size(fanOut, h));
    }
  }

  lemma {:induction false} LargerUnit(k: nat, a: nat, b: nat)
    requires a <= b
    ensures Times(k, a) <= Times(k, b)
  {
    if k == 0 {
    } else {
      LargerUnit(k - 1, a, b);
    }
  }

  /** At the defaults the whole tree is done within twenty-five steps. */
  lemma TwentyFiveStepsAtTheDefaults(w: World, start: nat, events: seq<Event>)
    requires w.Valid() && w.config.fanOut == 3 && w.config.hopCap == 2 && Reached(w, start, events).Some?
    ensures Steps(events) <= 25
  {
    EveryRunEnds(w, start, events);
    SizeGrows(3, w.HopsLeft(), 2);
    assert Size(3, 1) == 1 + Times(3, 1 + Size(3, 0)) && Size(3, 2) == 1 + Times(3, 1 + Size(3, 1));
    assert Times(3, 2) == Times(2, 2) + 2 && Times(3, 8) == Times(2, 8) + 8;
  }
}
