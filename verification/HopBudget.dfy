/** What one ask may still spend - hops, wall clock, identity - as read off the wire, and what it hands on.
  * Durations are nanoseconds. */
module HopBudget {
  import opened Common
  import opened HolderCache

  const U64_MAX: nat := 0xFFFF_FFFF_FFFF_FFFF
  const U8_MAX: nat := 255
  const NANOS_PER_MILLI: nat := 1_000_000
  const FORWARDED_ASK_LEAF_TIMEOUT: nat := 5 * NANOS_PER_SEC

  /** One request parameter, as far as reading it as an unsigned 64-bit number can tell. */
  datatype Field = Absent | Null | Number(n: nat) | Other

  function AsU64(f: Field): Option<nat> {
    if f.Number? && f.n <= U64_MAX then Some(f.n) else None
  }

  /** The time an ask deserves that may travel this many further hops: a leaf timeout, plus the need of
    * every peer it asks in turn. */
  function Work(hopsRemaining: nat, fanOut: nat): nat {
    if hopsRemaining == 0 then FORWARDED_ASK_LEAF_TIMEOUT
    else FORWARDED_ASK_LEAF_TIMEOUT + Breadth(fanOut) * Work(hopsRemaining - 1, fanOut)
  }

  function Breadth(fanOut: nat): (b: nat)
    ensures b >= 1
  {
    if fanOut == 0 then 1 else fanOut
  }

  lemma TimesAtLeast(b: nat, x: nat, y: nat)
    requires b >= 1 && x >= y
    ensures b * x >= y
  {
    assert b * x == (b - 1) * x + x;
    assert (b - 1) * x >= 0;
  }

  /** Once the need passes the ceiling it stays past it. */
  lemma {:induction false} WorkGrows(less: nat, more: nat, fanOut: nat)
    requires less <= more
    ensures Work(less, fanOut) <= Work(more, fanOut)
  {
    if less == more {
    } else {
      WorkGrows(less, more - 1, fanOut);
      TimesAtLeast(Breadth(fanOut), Work(more - 1, fanOut), Work(more - 1, fanOut));
    }
  }

  lemma WorkOneMore(h: nat, fanOut: nat)
    ensures Work(h + 1, fanOut) == FORWARDED_ASK_LEAF_TIMEOUT + Breadth(fanOut) * Work(h, fanOut)
  {
  }

  /** The budget derived for an ask with so many hops left: its whole need, never above the ceiling. */
  method AskBudget(hopsRemaining: nat, fanOut: nat) returns (budget: nat)
    ensures budget == Min(Work(hopsRemaining, fanOut), MAX_FORWARDED_ASK_BUDGET)
  {
    budget := FORWARDED_ASK_LEAF_TIMEOUT;
    for h := 0 to hopsRemaining
      invariant budget == Work(h, fanOut) && budget < MAX_FORWARDED_ASK_BUDGET
    {
      WorkOneMore(h, fanOut);
      budget := FORWARDED_ASK_LEAF_TIMEOUT + Breadth(fanOut) * budget;
      if budget >= MAX_FORWARDED_ASK_BUDGET {
        WorkGrows(h + 1, hopsRemaining, fanOut);
        budget := MAX_FORWARDED_ASK_BUDGET;
        return;
      }
    }
  }

  datatype HopBudget = HopBudget(hops: Option<nat>, askId: AskId, time: Option<nat>) {

    function Used(): nat { if hops.Some? then hops.value else 0 }

    function TimeBudget(hopsRemaining: nat, fanOut: nat): nat {
      if time.Some? then time.value else Min(Work(hopsRemaining, fanOut), MAX_FORWARDED_ASK_BUDGET)
    }

    /** Hops left to forward with; nothing when the budget could not be read. */
    function Remaining(hopCap: nat): Option<nat> {
      if hops.None? then None else Some(SaturatingSub(hopCap, if hops.value <= U8_MAX then hops.value else U8_MAX))
    }

    /** Every constructor clamps the carried time. */
    predicate Valid() { time.Some? ==> time.value <= MAX_FORWARDED_ASK_BUDGET }
  }

  function FromParams(redirectDepth: Field, budgetMs: Field, askId: Option<AskId>, minted: AskId): (b: HopBudget)
    ensures b.Valid()
  {
    var hops := if redirectDepth.Absent? || redirectDepth.Null? then Some(0) else AsU64(redirectDepth);
    var ms := AsU64(budgetMs);
    var time := if ms.Some? then Some(Min(ms.value * NANOS_PER_MILLI, MAX_FORWARDED_ASK_BUDGET)) else None;
    HopBudget(hops, if askId.Some? then askId.value else minted, time)
  }

  function Fresh(minted: AskId): HopBudget { HopBudget(Some(0), minted, None) }

  function Spent(minted: AskId): HopBudget { HopBudget(Some(U8_MAX), minted, None) }

  /** At the shipped bounds - three peers a hop, two hops - the need is the ceiling itself, sixty-five seconds; but a
    * fresh ask there has two hops left and its decision takes one off before the time is derived, so what it is
    * given is twenty. */
  lemma DefaultsNeedTheCeiling(minted: AskId)
    ensures Work(2, 3) == MAX_FORWARDED_ASK_BUDGET
    ensures var b := Fresh(minted);
      b.Remaining(2) == Some(2) && b.TimeBudget(2 - 1, 3) == 20 * NANOS_PER_SEC < Work(2, 3)
  {
    assert Work(1, 3) == FORWARDED_ASK_LEAF_TIMEOUT + 3 * Work(0, 3);
  }

  /** What the wire carries of a grant: whole milliseconds. */
  function WireBudget(grant: nat): Field { Number(Min(grant / NANOS_PER_MILLI, U64_MAX)) }

  /** No constructor, peer or configuration buys unbounded time. */
  lemma TimeIsBounded(b: HopBudget, hopsRemaining: nat, fanOut: nat)
    requires b.Valid()
    ensures b.TimeBudget(hopsRemaining, fanOut) <= MAX_FORWARDED_ASK_BUDGET
  {
  }

  /** Hops are refused exactly when the field is present and unreadable, or the cap is used up; a spent
    * budget never forwards, and an absent field carries the whole cap. */
  lemma ForwardsExactlyWhen(depth: Field, budgetMs: Field, askId: Option<AskId>, minted: AskId, hopCap: nat)
    requires hopCap <= U8_MAX
    ensures var r := FromParams(depth, budgetMs, askId, minted).Remaining(hopCap);
      && (r.None? <==> depth.Other? || (depth.Number? && depth.n > U64_MAX))
      && (r.Some? && r.value > 0 <==>
          ((depth.Absent? || depth.Null?) && hopCap > 0) || (depth.Number? && depth.n < hopCap))
    ensures Spent(minted).Remaining(hopCap) == Some(0) && Fresh(minted).Remaining(hopCap) == Some(hopCap)
  {
  }

  /** The three states of a carried budget: unreadable or absent leaves the node to derive its own, zero stays
    * zero, and anything else is granted exactly, up to the ceiling. */
  lemma BudgetStates(depth: Field, budgetMs: Field, askId: Option<AskId>, minted: AskId)
    ensures var time := FromParams(depth, budgetMs, askId, minted).time;
      && (time.None? <==> !(budgetMs.Number? && budgetMs.n <= U64_MAX))
      && (time == Some(0) <==> budgetMs == Number(0))
      && (budgetMs.Number? && budgetMs.n <= 65_000 ==> time == Some(budgetMs.n * NANOS_PER_MILLI))
      && (budgetMs.Number? && 65_000 <= budgetMs.n <= U64_MAX ==> time == Some(MAX_FORWARDED_ASK_BUDGET))
  {
  }

  /** One hop, end to end over the wire: the child sees one more hop consumed, one fewer left, the same
    * identity, and its grant to the millisecond below, never more than it was granted. */
  lemma OneHopFurther(b: HopBudget, hopCap: nat, grant: nat, minted: AskId)
    requires hopCap <= U8_MAX && b.Remaining(hopCap).Some? && b.Remaining(hopCap).value > 0
    ensures var left := b.Remaining(hopCap).value;
      var nextDepth := SaturatingSub(hopCap, left - 1);
      var child := FromParams(Number(nextDepth), WireBudget(grant), Some(b.askId), minted);
      && nextDepth == b.Used() + 1 <= hopCap
      && child.Remaining(hopCap) == Some(left - 1) && child.Used() == b.Used() + 1
      && child.askId == b.askId
      && child.time.Some? && child.time.value <= grant && child.time.value <= MAX_FORWARDED_ASK_BUDGET
      && (grant < child.time.value + NANOS_PER_MILLI || child.time.value == MAX_FORWARDED_ASK_BUDGET)
  {
    var ms := Min(grant / NANOS_PER_MILLI, U64_MAX);
    assert ms * NANOS_PER_MILLI <= grant;
  }
}
