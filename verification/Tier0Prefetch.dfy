/** One governed round of speculative precaching, and the limiter shared by every round. */
module Tier0Prefetch {
  import opened Common
  import opened Tier0Live
  import T = TokenAccounting

  // ---------------------------------------------------------------------------------------------
  // The two-resource limiter
  // ---------------------------------------------------------------------------------------------

  /** The slack the admission test allows: the spacing of doubles at one. */
  const EPSILON: real := 1.0 / 4503599627370496.0

  datatype BucketState = BucketState(capacity: real, tokens: real, refillPerTick: real, lastTick: nat)

  /** `tokens` after `elapsed` ticks of refilling. */
  function Grown(tokens: real, elapsed: nat, refillPerTick: real, capacity: real): real {
    LesserOf(tokens + elapsed as real * refillPerTick, capacity)
  }

  function Refilled(b: BucketState, now: nat): BucketState {
    if now > b.lastTick then
      b.(tokens := Grown(b.tokens, now - b.lastTick, b.refillPerTick, b.capacity), lastTick := now)
    else b
  }

  predicate Affords(b: BucketState, amount: real) { b.tokens + EPSILON >= amount }

  function Taken(b: BucketState, amount: nat, now: nat): (BucketState, bool) {
    var r := Refilled(b, now);
    if Affords(r, amount as real) then (r.(tokens := r.tokens - amount as real), true) else (r, false)
  }

  class TokenBucket {
    const capacity: real
    const refillPerTick: real
    var tokens: real
    var lastTick: nat

    ghost function State(): BucketState
      reads this
    {
      BucketState(capacity, tokens, refillPerTick, lastTick)
    }

    constructor (capacity: nat, refillPerTick: real)
      ensures State() == BucketState(capacity as real, capacity as real, refillPerTick, 0)
    {
      this.capacity, this.refillPerTick := capacity as real, refillPerTick;
      tokens, lastTick := capacity as real, 0;
    }

    method Refill(now: nat)
      modifies this
      ensures State() == Refilled(old(State()), now)
    {
      if now > lastTick {
        tokens := Grown(tokens, now - lastTick, refillPerTick, capacity);
        lastTick := now;
      }
    }

    method TryTake(amount: nat, now: nat) returns (taken: bool)
      modifies this
      ensures (State(), taken) == Taken(old(State()), amount, now)
    {
      Refill(now);
      if tokens + EPSILON >= amount as real {
        tokens := tokens - amount as real;
        taken := true;
      } else {
        taken := false;
      }
    }
  }

  /** The limiter of all rounds, on values. */
  datatype Limiter = Limiter(stores: BucketState, bytes: BucketState)

  function FreshLimiter(storesPerWindow: nat, bytesPerWindow: nat, windowTicks: nat): Limiter {
    var window := if windowTicks < 1 then 1.0 else windowTicks as real;
    Limiter(BucketState(storesPerWindow as real, storesPerWindow as real, storesPerWindow as real / window, 0),
            BucketState(bytesPerWindow as real, bytesPerWindow as real, bytesPerWindow as real / window, 0))
  }

  function RefilledBoth(l: Limiter, now: nat): Limiter { Limiter(Refilled(l.stores, now), Refilled(l.bytes, now)) }

  predicate Admits(l: Limiter, sizeBytes: nat) { Affords(l.stores, 1.0) && Affords(l.bytes, sizeBytes as real) }

  /** Both buckets pay, or neither does. */
  function Charged(l: Limiter, sizeBytes: nat): Limiter {
    Limiter(l.stores.(tokens := l.stores.tokens - 1.0), l.bytes.(tokens := l.bytes.tokens - sizeBytes as real))
  }

  function Admit(l: Limiter, sizeBytes: nat, now: nat): (Limiter, bool) {
    var r := RefilledBoth(l, now);
    if Admits(r, sizeBytes) then (Charged(r, sizeBytes), true) else (r, false)
  }

  class RoundRateLimiter {
    const stores: TokenBucket
    const bytes: TokenBucket

    ghost predicate Valid() { stores != bytes }

    ghost function State(): Limiter
      reads stores, bytes
    {
      Limiter(stores.State(), bytes.State())
    }

    constructor (storesPerWindow: nat, bytesPerWindow: nat, windowTicks: nat)
      ensures Valid() && fresh(stores) && fresh(bytes)
      ensures State() == FreshLimiter(storesPerWindow, bytesPerWindow, windowTicks)
    {
      var window := if windowTicks < 1 then 1.0 else windowTicks as real;
      stores := new TokenBucket(storesPerWindow, storesPerWindow as real / window);
      bytes := new TokenBucket(bytesPerWindow, bytesPerWindow as real / window);
    }

    method TryAdmit(sizeBytes: nat, now: nat) returns (admitted: bool)
      requires Valid()
      modifies stores, bytes
      ensures (State(), admitted) == Admit(old(State()), sizeBytes, now)
    {
      stores.Refill(now);
      bytes.Refill(now);
      var storeOk := stores.tokens + EPSILON >= 1.0;
      var bytesOk := bytes.tokens + EPSILON >= sizeBytes as real;
      admitted := storeOk && bytesOk;
      if admitted {
        stores.tokens := stores.tokens - 1.0;
        bytes.tokens := bytes.tokens - sizeBytes as real;
      }
    }
  }

  // ---------------------------------------------------------------------------------------------
  // Size resolution
  // ---------------------------------------------------------------------------------------------

  type ContentId = nat

  datatype Candidate = Candidate(contentId: ContentId, knownProviderCount: nat, sizeHint: Option<nat>)

  datatype SizedCandidate = SizedCandidate(contentId: ContentId, sizeBytes: nat, knownProviderCount: nat)

  const MAX_SIZE_PROBES_PER_ROUND: nat := 32

  predicate KnownSize(s: Option<nat>) { s.Some? && s.value > 0 }

  /** One candidate: the reconciled hint, else one probe while any are left, else nothing. `answers(i)` is
    * what the i-th probe of the round reports. */
  function Resolve(c: Candidate, answers: nat -> Option<nat>, used: nat): (nat, Option<SizedCandidate>) {
    if KnownSize(c.sizeHint) then
      (used, Some(SizedCandidate(c.contentId, c.sizeHint.value, c.knownProviderCount)))
    else if used >= MAX_SIZE_PROBES_PER_ROUND then (used, None)
    else if KnownSize(answers(used)) then
      (used + 1, Some(SizedCandidate(c.contentId, answers(used).value, c.knownProviderCount)))
    else (used + 1, None)
  }

  datatype Sizing = Sizing(sized: seq<SizedCandidate>, used: nat, dropped: nat)

  function ResolveAll(cs: seq<Candidate>, answers: nat -> Option<nat>): Sizing {
    if cs == [] then Sizing([], 0, 0) else
      var before := ResolveAll(cs[..|cs| - 1], answers);
      var (used, r) := Resolve(cs[|cs| - 1], answers, before.used);
      match r
      case Some(sc) => Sizing(before.sized + [sc], used, before.dropped)
      case None => Sizing(before.sized, used, before.dropped + 1)
  }

  method ResolveCandidateSize(c: Candidate, answers: nat -> Option<nat>, probesUsed: nat)
    returns (used: nat, r: Option<SizedCandidate>)
    ensures (used, r) == Resolve(c, answers, probesUsed)
  {
    used := probesUsed;
    var size: nat;
    if KnownSize(c.sizeHint) {
      size := c.sizeHint.value;
    } else {
      if used >= MAX_SIZE_PROBES_PER_ROUND {
        return used, None;
      }
      var answer := answers(used);
      used := used + 1;
      if !KnownSize(answer) {
        return used, None;
      }
      size := answer.value;
    }
    r := Some(SizedCandidate(c.contentId, size, c.knownProviderCount));
  }

  /** At most 32 probes, whatever the candidates; every candidate is either sized, with a positive size, or
    * counted as dropped. */
  lemma {:induction false} SizingIsBoundedAndTotal(cs: seq<Candidate>, answers: nat -> Option<nat>)
    ensures var s := ResolveAll(cs, answers);
      && s.used <= MAX_SIZE_PROBES_PER_ROUND
      && |s.sized| + s.dropped == |cs|
      && forall i :: 0 <= i < |s.sized| ==> s.sized[i].sizeBytes > 0
  {
    if cs == [] {
    } else {
      SizingIsBoundedAndTotal(cs[..|cs| - 1], answers);
    }
  }

  // ---------------------------------------------------------------------------------------------
  // The round
  // ---------------------------------------------------------------------------------------------

  datatype RoundSkip = Disabled | Busy | SmallDisk

  datatype RoundOutcome = RoundOutcome(
    cached: nat, cachedBytes: nat, droppedUnsized: nat, discarded: nat, rateLimited: nat, alreadyHeld: nat,
    skipped: Option<RoundSkip>)

  const NOTHING := RoundOutcome(0, 0, 0, 0, 0, 0, None)

  const MIN_USEFUL_TIER0: nat := 64 * 1024 * 1024

  /** A tenth of the cache, rounded down. */
  function Tier0BudgetBytes(cacheCapBytes: nat): nat { cacheCapBytes / 10 }

  /** One call of the limiter as the round made it: what was asked, what both buckets held once refilled,
    * whether it was admitted, and of the fetch it let through, the bytes the round counts as cached and the
    * bytes that landed on disk. */
  datatype Charge = Charge(tick: nat, contentId: ContentId, sizeBytes: nat, storesBefore: real, bytesBefore: real,
                           admitted: bool, cap: nat, cachedBytes: nat, landedBytes: nat)

  /** The fetch loop between two candidates. `capZero` counts the candidates passed over because the
    * sub-budget was spent, which the code's tally leaves out; `log` is the record of limiter calls. */
  datatype Loop = Loop(outcome: RoundOutcome, remaining: nat, limiter: Limiter, fetcher: FetchState,
                       capZero: nat, log: seq<Charge>)

  function FetchStep(st: Loop, sc: SizedCandidate, held: set<ContentId>, w: World, now: nat): Loop {
    var cap := Min(sc.sizeBytes, st.remaining);
    if sc.contentId in held then
      st.(outcome := st.outcome.(alreadyHeld := st.outcome.alreadyHeld + 1))
    else if cap == 0 then
      st.(capZero := st.capZero + 1)
    else
      var r := RefilledBoth(st.limiter, now);
      var entry := Charge(now, sc.contentId, sc.sizeBytes, r.stores.tokens, r.bytes.tokens, false, cap, 0, 0);
      if !Admits(r, sc.sizeBytes) then
        st.(limiter := r, outcome := st.outcome.(rateLimited := st.outcome.rateLimited + 1), log := st.log + [entry])
      else
        var (f, o) := Fetch(w, st.fetcher, cap);
        var landed := LandedBytes(w, st.fetcher);
        match o
        case Cached(bytes) =>
          Loop(st.outcome.(cached := st.outcome.cached + 1, cachedBytes := st.outcome.cachedBytes + bytes),
               SaturatingSub(st.remaining, bytes), Charged(r, sc.sizeBytes), f, st.capZero,
               st.log + [entry.(admitted := true, cachedBytes := bytes, landedBytes := landed)])
        case Discarded(_) =>
          Loop(st.outcome.(discarded := st.outcome.discarded + 1),
               st.remaining, Charged(r, sc.sizeBytes), f, st.capZero,
               st.log + [entry.(admitted := true, landedBytes := landed)])
  }

  /** Indices naming distinct candidates. */
  predicate ValidSelection(selected: seq<nat>, n: nat) {
    && (forall i :: 0 <= i < |selected| ==> selected[i] < n)
    && (forall i, j :: 0 <= i < j < |selected| ==> selected[i] != selected[j])
  }

  function FetchAll(st: Loop, sized: seq<SizedCandidate>, selected: seq<nat>, held: set<ContentId>, w: World,
                    now: nat): Loop
    requires ValidSelection(selected, |sized|)
  {
    if selected == [] then st else
      var n := |selected| - 1;
      FetchStep(FetchAll(st, sized, selected[..n], held, w, now), sized[selected[n]], held, w, now)
  }

  /** Everything a round is a function of, besides the limiter and the fetcher it is handed. */
  datatype RoundInput = RoundInput(
    enabled: bool, busy: bool, cacheCapBytes: nat, candidates: seq<Candidate>, answers: nat -> Option<nat>,
    select: seq<SizedCandidate> -> seq<nat>, held: set<ContentId>, tick: nat)
  {
    function Sized(): Sizing { ResolveAll(candidates, answers) }

    function Selected(): seq<nat> { select(Sized().sized) }

    /** The selector returns distinct indices of what it was given. */
    predicate Valid() { ValidSelection(Selected(), |Sized().sized|) }

    function Skip(): Option<RoundSkip> {
      if !enabled then Some(Disabled)
      else if busy then Some(Busy)
      else if Tier0BudgetBytes(cacheCapBytes) < MIN_USEFUL_TIER0 then Some(SmallDisk)
      else None
    }

    function Start(l: Limiter, f: FetchState): Loop {
      Loop(NOTHING.(droppedUnsized := Sized().dropped), Tier0BudgetBytes(cacheCapBytes), l, f, 0, [])
    }
  }

  /** One round: what it reports, and the limiter, fetcher and record it leaves. */
  function Round(i: RoundInput, l: Limiter, f: FetchState, w: World): Loop
    requires i.Valid()
  {
    if i.Skip().Some? then Loop(NOTHING.(skipped := i.Skip()), 0, l, f, 0, [])
    else FetchAll(i.Start(l, f), i.Sized().sized, i.Selected(), i.held, w, i.tick)
  }

  method SizeCandidates(cs: seq<Candidate>, answers: nat -> Option<nat>)
    returns (sized: seq<SizedCandidate>, dropped: nat)
    ensures sized == ResolveAll(cs, answers).sized && dropped == ResolveAll(cs, answers).dropped
  {
    sized, dropped := [], 0;
    var probesUsed := 0;
    for k := 0 to |cs|
      invariant Sizing(sized, probesUsed, dropped) == ResolveAll(cs[..k], answers)
    {
      assert cs[..k + 1][..k] == cs[..k];
      var r;
      probesUsed, r := ResolveCandidateSize(cs[k], answers, probesUsed);
      match r
      case Some(sc) => sized := sized + [sc];
      case None => dropped := dropped + 1;
    }
    assert cs[..|cs|] == cs;
  }

  /** One selected candidate: skip it, defer it, or fetch it under its cap. */
  method Consider(sc: SizedCandidate, held: set<ContentId>, now: nat, fetcher: NodeTier0Fetcher, rate: RoundRateLimiter,
                  outcome: RoundOutcome, remaining: nat, ghost st: Loop)
    returns (outcome': RoundOutcome, remaining': nat)
    requires rate.Valid()
    requires st.outcome == outcome && st.remaining == remaining
    requires st.limiter == rate.State() && st.fetcher == fetcher.State()
    modifies fetcher, rate.stores, rate.bytes
    ensures var st' := FetchStep(st, sc, held, fetcher.world, now);
      && st'.outcome == outcome' && st'.remaining == remaining'
      && st'.limiter == rate.State() && st'.fetcher == fetcher.State()
  {
    outcome', remaining' := outcome, remaining;
    if sc.contentId in held {
      outcome' := outcome.(alreadyHeld := outcome.alreadyHeld + 1);
      return;
    }
    var cap := Min(sc.sizeBytes, remaining);
    if cap == 0 {
      return;
    }
    var admitted := rate.TryAdmit(sc.sizeBytes, now);
    if !admitted {
      outcome' := outcome.(rateLimited := outcome.rateLimited + 1);
      return;
    }
    var fetched := fetcher.FetchAndCache(cap);
    match fetched
    case Cached(bytes) =>
      outcome' := outcome.(cached := outcome.cached + 1, cachedBytes := outcome.cachedBytes + bytes);
      remaining' := SaturatingSub(remaining, bytes);
    case Discarded(_) =>
      outcome' := outcome.(discarded := outcome.discarded + 1);
  }

  method RunRound(i: RoundInput, fetcher: NodeTier0Fetcher, rate: RoundRateLimiter) returns (outcome: RoundOutcome)
    requires i.Valid() && rate.Valid()
    modifies fetcher, rate.stores, rate.bytes
    ensures var r := Round(i, old(rate.State()), old(fetcher.State()), fetcher.world);
      outcome == r.outcome && rate.State() == r.limiter && fetcher.State() == r.fetcher
  {
    if !i.enabled {
      return NOTHING.(skipped := Some(Disabled));
    }
    if i.busy {
      return NOTHING.(skipped := Some(Busy));
    }
    var budget := Tier0BudgetBytes(i.cacheCapBytes);
    if budget < MIN_USEFUL_TIER0 {
      return NOTHING.(skipped := Some(SmallDisk));
    }
    var sized, dropped := SizeCandidates(i.candidates, i.answers);
    outcome := NOTHING.(droppedUnsized := dropped);
    var selected := i.select(sized);
    var remaining := budget;
    ghost var start := i.Start(rate.State(), fetcher.State());
    ghost var st := start;
    for k := 0 to |selected|
      invariant st == FetchAll(start, sized, selected[..k], i.held, fetcher.world, i.tick)
      invariant st.outcome == outcome && st.remaining == remaining
      invariant st.limiter == rate.State() && st.fetcher == fetcher.State()
    {
      assert selected[..k + 1][..k] == selected[..k];
      outcome, remaining :=
        Consider(sized[selected[k]], i.held, i.tick, fetcher, rate, outcome, remaining, st);
      st := FetchStep(st, sized[selected[k]], i.held, fetcher.world, i.tick);
    }
    assert selected[..|selected|] == selected;
  }

  // ---------------------------------------------------------------------------------------------
  // What every round keeps
  // ---------------------------------------------------------------------------------------------

  function Tally(o: RoundOutcome): nat { o.cached + o.discarded + o.rateLimited + o.alreadyHeld }

  function SumCached(log: seq<Charge>): nat {
    if log == [] then 0 else SumCached(log[..|log| - 1]) + log[|log| - 1].cachedBytes
  }

  function CountAdmitted(log: seq<Charge>): nat {
    if log == [] then 0 else CountAdmitted(log[..|log| - 1]) + (if log[|log| - 1].admitted then 1 else 0)
  }

  lemma LogOneMore(log: seq<Charge>, e: Charge)
    ensures SumCached(log + [e]) == SumCached(log) + e.cachedBytes
    ensures CountAdmitted(log + [e]) == CountAdmitted(log) + (if e.admitted then 1 else 0)
  {
    assert (log + [e])[..|log|] == log;
  }

  /** What is counted for a call is what landed, unless that was over the cap. */
  predicate Tallied(e: Charge) { e.cachedBytes == if e.landedBytes <= e.cap then e.landedBytes else 0 }

  /** An entry of the record is honest: never for something held, never for more than the cap it was given,
    * nothing lands that the limiter did not admit, and what is counted is what landed unless that was over
    * the cap, which counts as nothing. */
  predicate Honest(e: Charge, held: set<ContentId>, tick: nat) {
    && e.contentId !in held && e.tick == tick
    && 0 < e.cap <= e.sizeBytes && e.cachedBytes <= e.cap
    && Tallied(e)
    && (!e.admitted ==> e.landedBytes == 0)
  }

  /** The books of a round after `k` selected candidates: bytes are conserved, and each candidate is in
    * exactly one column, counting those passed over because the sub-budget was spent. */
  predicate Balanced(st: Loop, budget: nat, k: nat, held: set<ContentId>, tick: nat) {
    && st.remaining + st.outcome.cachedBytes == budget
    && Tally(st.outcome) + st.capZero == k
    && st.outcome.cachedBytes == SumCached(st.log)
    && st.outcome.cached + st.outcome.discarded == CountAdmitted(st.log)
    && st.outcome.rateLimited + CountAdmitted(st.log) == |st.log|
    && (forall i :: 0 <= i < |st.log| ==> Honest(st.log[i], held, tick))
  }

  /** The entry one call of the limiter leaves is honest, and moves the books as it says. */
  lemma ItsEntryIsHonest(st: Loop, sc: SizedCandidate, held: set<ContentId>, w: World, now: nat)
    requires sc.contentId !in held && Min(sc.sizeBytes, st.remaining) > 0
    ensures var next := FetchStep(st, sc, held, w, now);
      && |next.log| == |st.log| + 1 && next.log == st.log + [next.log[|st.log|]]
      && Honest(next.log[|st.log|], held, now) && MovesBy(st, next, next.log[|st.log|])
  {
    FetchHonoursItsContract(w, st.fetcher, Min(sc.sizeBytes, st.remaining));
  }

  predicate MovesBy(st: Loop, next: Loop, e: Charge) {
    && next.remaining == st.remaining - e.cachedBytes && next.capZero == st.capZero
    && next.outcome.cachedBytes == st.outcome.cachedBytes + e.cachedBytes
    && next.outcome.alreadyHeld == st.outcome.alreadyHeld
    && next.outcome.cached + next.outcome.discarded
         == st.outcome.cached + st.outcome.discarded + (if e.admitted then 1 else 0)
    && next.outcome.rateLimited == st.outcome.rateLimited + (if e.admitted then 0 else 1)
  }

  lemma BooksOneMore(st: Loop, next: Loop, e: Charge, held: set<ContentId>, now: nat, budget: nat, k: nat)
    requires Balanced(st, budget, k, held, now)
    requires next.log == st.log + [e] && Honest(e, held, now) && MovesBy(st, next, e)
    ensures Balanced(next, budget, k + 1, held, now)
  {
    LogOneMore(st.log, e);
  }

  lemma StepKeepsTheBooks(st: Loop, sc: SizedCandidate, held: set<ContentId>, w: World, now: nat, budget: nat, k: nat)
    requires Balanced(st, budget, k, held, now)
    ensures Balanced(FetchStep(st, sc, held, w, now), budget, k + 1, held, now)
    ensures FetchStep(st, sc, held, w, now).capZero > st.capZero ==> st.remaining == 0 || sc.sizeBytes == 0
  {
    if sc.contentId !in held && Min(sc.sizeBytes, st.remaining) > 0 {
      var next := FetchStep(st, sc, held, w, now);
      ItsEntryIsHonest(st, sc, held, w, now);
      BooksOneMore(st, next, next.log[|st.log|], held, now, budget, k);
    }
  }

  lemma {:induction false} LoopKeepsTheBooks(
    st: Loop, sized: seq<SizedCandidate>, selected: seq<nat>, held: set<ContentId>, w: World, now: nat, budget: nat)
    requires ValidSelection(selected, |sized|) && Balanced(st, budget, 0, held, now)
    ensures Balanced(FetchAll(st, sized, selected, held, w, now), budget, |selected|, held, now)
  {
    if selected == [] {
    } else {
      var n := |selected| - 1;
      LoopKeepsTheBooks(st, sized, selected[..n], held, w, now, budget);
      StepKeepsTheBooks(FetchAll(st, sized, selected[..n], held, w, now), sized[selected[n]], held, w, now, budget, n);
    }
  }

  /** Every round that runs: the sub-budget is exactly split between what was cached and what remains, the
    * counters partition both the sampled and the selected candidates, and no fetch is for a held capsule
    * or beyond its cap. A skipped round touches nothing. */
  lemma RoundKeepsItsBooks(i: RoundInput, l: Limiter, f: FetchState, w: World)
    requires i.Valid()
    ensures var r := Round(i, l, f, w);
      if i.Skip().Some? then
        r.limiter == l && r.fetcher == f && r.log == [] && r.outcome == NOTHING.(skipped := i.Skip())
      else
        && Balanced(r, Tier0BudgetBytes(i.cacheCapBytes), |i.Selected()|, i.held, i.tick)
        && r.outcome.cachedBytes <= Tier0BudgetBytes(i.cacheCapBytes)
        && r.outcome.droppedUnsized + |i.Sized().sized| == |i.candidates|
        && r.outcome.skipped == None
  {
    if i.Skip().None? {
      LoopKeepsTheBooks(i.Start(l, f), i.Sized().sized, i.Selected(), i.held, w, i.tick,
                        Tier0BudgetBytes(i.cacheCapBytes));
      SizingIsBoundedAndTotal(i.candidates, i.answers);
      LoopKeepsTheDrops(i.Start(l, f), i.Sized().sized, i.Selected(), i.held, w, i.tick);
    }
  }

  lemma {:induction false} LoopKeepsTheDrops(
    st: Loop, sized: seq<SizedCandidate>, selected: seq<nat>, held: set<ContentId>, w: World, now: nat)
    requires ValidSelection(selected, |sized|)
    ensures var r := FetchAll(st, sized, selected, held, w, now);
      r.outcome.droppedUnsized == st.outcome.droppedUnsized && r.outcome.skipped == st.outcome.skipped
  {
    if selected == [] {
    } else {
      LoopKeepsTheDrops(st, sized, selected[..|selected| - 1], held, w, now);
    }
  }

  // ---------------------------------------------------------------------------------------------
  // The ceiling across rounds
  // ---------------------------------------------------------------------------------------------

  /** A limiter charge is all or nothing: a refusal by either bucket costs the other nothing. */
  lemma AdmissionIsAtomic(l: Limiter, sizeBytes: nat, now: nat)
    ensures var (l', ok) := Admit(l, sizeBytes, now);
      var r := RefilledBoth(l, now);
      && l' == (if ok then Charged(r, sizeBytes) else r)
      && (ok <==> Taken(l.stores, 1, now).1 && Taken(l.bytes, sizeBytes, now).1)
      && (ok ==> l' == Limiter(Taken(l.stores, 1, now).0, Taken(l.bytes, sizeBytes, now).0))
  {
  }

  function ByteUse(e: Charge): T.Use {
    T.Use(e.tick as real, e.bytesBefore, if e.admitted then e.sizeBytes as real else 0.0)
  }

  function StoreUse(e: Charge): T.Use {
    T.Use(e.tick as real, e.storesBefore, if e.admitted then 1.0 else 0.0)
  }

  function ByteUses(log: seq<Charge>): (uses: seq<T.Use>)
    ensures |uses| == |log|
  {
    if log == [] then [] else ByteUses(log[..|log| - 1]) + [ByteUse(log[|log| - 1])]
  }

  function StoreUses(log: seq<Charge>): (uses: seq<T.Use>)
    ensures |uses| == |log|
  {
    if log == [] then [] else StoreUses(log[..|log| - 1]) + [StoreUse(log[|log| - 1])]
  }

  lemma UsesOneMore(log: seq<Charge>, e: Charge)
    ensures ByteUses(log + [e]) == ByteUses(log) + [ByteUse(e)]
    ensures StoreUses(log + [e]) == StoreUses(log) + [StoreUse(e)]
  {
    assert (log + [e])[..|log|] == log;
  }

  /** The bucket is where its record says it is. */
  predicate Agrees(uses: seq<T.Use>, b: BucketState) {
    && T.Lawful(uses, b.capacity, b.refillPerTick, EPSILON)
    && b.tokens <= b.capacity && b.refillPerTick >= 0.0
    && (uses != [] ==>
        var u := uses[|uses| - 1]; u.Left() == b.tokens && u.at == b.lastTick as real)
  }

  lemma RefillGains(b: BucketState, now: nat)
    requires b.lastTick <= now && b.tokens <= b.capacity && b.refillPerTick >= 0.0
    ensures var r := Refilled(b, now);
      && r.lastTick == now && b.tokens <= r.tokens <= b.capacity
      && r.tokens <= b.tokens + (now as real - b.lastTick as real) * b.refillPerTick
  {
    T.ProductNonNegative((now - b.lastTick) as real, b.refillPerTick);
    assert (now - b.lastTick) as real == now as real - b.lastTick as real;
  }

  /** One use of the bucket at `now`, taking `spent`, which it affords. */
  lemma AgreesOneMore(uses: seq<T.Use>, b: BucketState, now: nat, spent: real)
    requires Agrees(uses, b) && b.lastTick <= now
    requires 0.0 <= spent && (spent == 0.0 ==> uses != [] || b.tokens >= 0.0)
    requires spent > 0.0 ==> Affords(Refilled(b, now), spent)
    ensures var r := Refilled(b, now);
      Agrees(uses + [T.Use(now as real, r.tokens, spent)], r.(tokens := r.tokens - spent))
  {
    RefillGains(b, now);
    var r := Refilled(b, now);
    var u := T.Use(now as real, r.tokens, spent);
    if uses != [] {
      assert T.Follows(uses[|uses| - 1], u, b.refillPerTick);
    }
    T.LawfulOneMore(uses, u, b.capacity, b.refillPerTick, EPSILON);
  }

  /** Both buckets are where the record says. */
  predicate InStep(log: seq<Charge>, l: Limiter) {
    && Agrees(ByteUses(log), l.bytes) && Agrees(StoreUses(log), l.stores)
    && (log == [] ==> l.bytes.tokens >= 0.0 && l.stores.tokens >= 0.0)
    && l.bytes.lastTick == l.stores.lastTick
  }

  lemma AdmitKeepsInStep(log: seq<Charge>, l: Limiter, e: Charge)
    requires InStep(log, l) && l.bytes.lastTick <= e.tick
    requires var r := RefilledBoth(l, e.tick);
      e.storesBefore == r.stores.tokens && e.bytesBefore == r.bytes.tokens && e.admitted == Admits(r, e.sizeBytes)
    ensures InStep(log + [e], Admit(l, e.sizeBytes, e.tick).0)
    ensures Admit(l, e.sizeBytes, e.tick).0.bytes.lastTick == e.tick
  {
    UsesOneMore(log, e);
    RefillGains(l.bytes, e.tick);
    RefillGains(l.stores, e.tick);
    AgreesOneMore(ByteUses(log), l.bytes, e.tick, ByteUse(e).spent);
    AgreesOneMore(StoreUses(log), l.stores, e.tick, StoreUse(e).spent);
  }

  /** A step that asks the limiter records exactly one call of it. */
  lemma StepRecordsItsCall(st: Loop, sc: SizedCandidate, held: set<ContentId>, w: World, now: nat)
    requires sc.contentId !in held && Min(sc.sizeBytes, st.remaining) > 0
    ensures var next := FetchStep(st, sc, held, w, now);
      var r := RefilledBoth(st.limiter, now);
      && |next.log| == |st.log| + 1 && next.log == st.log + [next.log[|st.log|]]
      && next.limiter == Admit(st.limiter, sc.sizeBytes, now).0
      && var e := next.log[|st.log|];
        && e.tick == now && e.sizeBytes == sc.sizeBytes && e.admitted == Admits(r, sc.sizeBytes)
        && e.storesBefore == r.stores.tokens && e.bytesBefore == r.bytes.tokens
  {
  }

  lemma StepStaysInStep(before: seq<Charge>, st: Loop, sc: SizedCandidate, held: set<ContentId>, w: World, now: nat)
    requires InStep(before + st.log, st.limiter) && st.limiter.bytes.lastTick <= now
    ensures var next := FetchStep(st, sc, held, w, now);
      InStep(before + next.log, next.limiter) && next.limiter.bytes.lastTick <= now
  {
    if sc.contentId !in held && Min(sc.sizeBytes, st.remaining) > 0 {
      StepRecordsItsCall(st, sc, held, w, now);
      OneCallStaysInStep(before, st.log, st.limiter, FetchStep(st, sc, held, w, now).log[|st.log|]);
    }
  }

  lemma OneCallStaysInStep(before: seq<Charge>, log: seq<Charge>, l: Limiter, e: Charge)
    requires InStep(before + log, l) && l.bytes.lastTick <= e.tick
    requires var r := RefilledBoth(l, e.tick);
      e.storesBefore == r.stores.tokens && e.bytesBefore == r.bytes.tokens && e.admitted == Admits(r, e.sizeBytes)
    ensures InStep(before + (log + [e]), Admit(l, e.sizeBytes, e.tick).0)
    ensures Admit(l, e.sizeBytes, e.tick).0.bytes.lastTick == e.tick
  {
    AdmitKeepsInStep(before + log, l, e);
    assert before + log + [e] == before + (log + [e]);
  }

  lemma {:induction false} RoundStaysInStep(
    before: seq<Charge>, st: Loop, sized: seq<SizedCandidate>, selected: seq<nat>, held: set<ContentId>, w: World,
    now: nat)
    requires ValidSelection(selected, |sized|)
    requires InStep(before + st.log, st.limiter) && st.limiter.bytes.lastTick <= now
    ensures var r := FetchAll(st, sized, selected, held, w, now);
      InStep(before + r.log, r.limiter) && r.limiter.bytes.lastTick <= now
  {
    if selected == [] {
    } else {
      var n := |selected| - 1;
      RoundStaysInStep(before, st, sized, selected[..n], held, w, now);
      StepStaysInStep(before, FetchAll(st, sized, selected[..n], held, w, now), sized[selected[n]], held, w, now);
    }
  }

  /** The life of the loop: one limiter and one fetcher threaded through every round. */
  datatype Life = Life(limiter: Limiter, fetcher: FetchState, log: seq<Charge>)

  predicate Scheduled(rounds: seq<RoundInput>) {
    && (forall i :: 0 <= i < |rounds| ==> rounds[i].Valid())
    && (forall i, j :: 0 <= i < j < |rounds| ==> rounds[i].tick <= rounds[j].tick)
  }

  function Live(rounds: seq<RoundInput>, l: Limiter, f: FetchState, w: World): Life
    requires Scheduled(rounds)
  {
    if rounds == [] then Life(l, f, []) else
      var n := |rounds| - 1;
      var before := Live(rounds[..n], l, f, w);
      var r := Round(rounds[n], before.limiter, before.fetcher, w);
      Life(r.limiter, r.fetcher, before.log + r.log)
  }

  lemma {:induction false} LifeStaysInStep(rounds: seq<RoundInput>, l: Limiter, f: FetchState, w: World)
    requires Scheduled(rounds) && InStep([], l) && l.bytes.lastTick == 0
    ensures var life := Live(rounds, l, f, w);
      && InStep(life.log, life.limiter)
      && life.limiter.bytes.lastTick <= (if rounds == [] then 0 else rounds[|rounds| - 1].tick)
  {
    if rounds == [] {
    } else {
      var n := |rounds| - 1;
      var i := rounds[n];
      LifeStaysInStep(rounds[..n], l, f, w);
      var before := Live(rounds[..n], l, f, w);
      assert before.log + [] == before.log;
      if i.Skip().None? {
        RoundStaysInStep(before.log, i.Start(before.limiter, before.fetcher), i.Sized().sized, i.Selected(), i.held,
                         w, i.tick);
      }
    }
  }

  /** Every call is charged at least what it counts, and counts what it should. */
  predicate Accounted(e: Charge) { e.cachedBytes <= ByteUseSize(e) && Tallied(e) }

  lemma RoundIsAccounted(i: RoundInput, l: Limiter, f: FetchState, w: World)
    requires i.Valid()
    ensures forall k :: 0 <= k < |Round(i, l, f, w).log| ==> Accounted(Round(i, l, f, w).log[k])
  {
    RoundKeepsItsBooks(i, l, f, w);
    var r := Round(i, l, f, w);
    forall k | 0 <= k < |r.log| ensures Accounted(r.log[k]) { assert Honest(r.log[k], i.held, i.tick); }
  }

  lemma {:induction false} LifeIsAccounted(rounds: seq<RoundInput>, l: Limiter, f: FetchState, w: World)
    requires Scheduled(rounds)
    ensures forall k :: 0 <= k < |Live(rounds, l, f, w).log| ==> Accounted(Live(rounds, l, f, w).log[k])
  {
    if rounds == [] {
    } else {
      var n := |rounds| - 1;
      LifeIsAccounted(rounds[..n], l, f, w);
      var before := Live(rounds[..n], l, f, w);
      RoundIsAccounted(rounds[n], before.limiter, before.fetcher, w);
    }
  }

  /** The bytes the limiter was charged for one call. */
  function ByteUseSize(e: Charge): nat { if e.admitted then e.sizeBytes else 0 }

  /** Bytes the rounds count as cached by fetches in ticks [from, to], and bytes that landed. */
  function CachedIn(log: seq<Charge>, from: nat, to: nat): nat {
    if log == [] then 0 else
      var e := log[|log| - 1];
      CachedIn(log[..|log| - 1], from, to) + (if from <= e.tick <= to then e.cachedBytes else 0)
  }

  function LandedIn(log: seq<Charge>, from: nat, to: nat): nat {
    if log == [] then 0 else
      var e := log[|log| - 1];
      LandedIn(log[..|log| - 1], from, to) + (if from <= e.tick <= to then e.landedBytes else 0)
  }

  /** No pull in ticks [from, to] landed more than the cap it was given. */
  predicate PullsKeepTheirCap(log: seq<Charge>, from: nat, to: nat) {
    forall i :: 0 <= i < |log| && from <= log[i].tick <= to ==> log[i].landedBytes <= log[i].cap
  }

  /** What is counted is what landed, exactly while no pull lands more than its cap. */
  lemma {:induction false} CountedIsLandedExactlyWhen(log: seq<Charge>, from: nat, to: nat)
    requires forall i :: 0 <= i < |log| ==> Tallied(log[i])
    ensures CachedIn(log, from, to) <= LandedIn(log, from, to)
    ensures CachedIn(log, from, to) == LandedIn(log, from, to) <==> PullsKeepTheirCap(log, from, to)
  {
    if log == [] {
    } else {
      var n := |log| - 1;
      CountedIsLandedExactlyWhen(log[..n], from, to);
      assert Tallied(log[n]);
      assert PullsKeepTheirCap(log, from, to)
        <==> PullsKeepTheirCap(log[..n], from, to) && (from <= log[n].tick <= to ==> log[n].landedBytes <= log[n].cap);
    }
  }

  /** Fetches issued in ticks [from, to]. */
  function FetchesIn(log: seq<Charge>, from: nat, to: nat): nat {
    if log == [] then 0 else
      var e := log[|log| - 1];
      FetchesIn(log[..|log| - 1], from, to) + (if from <= e.tick <= to && e.admitted then 1 else 0)
  }

  lemma {:induction false} CachedIsWithinCharged(log: seq<Charge>, from: nat, to: nat)
    requires forall i :: 0 <= i < |log| ==> Accounted(log[i])
    ensures CachedIn(log, from, to) as real <= T.SpentIn(ByteUses(log), from as real, to as real)
    ensures FetchesIn(log, from, to) as real == T.SpentIn(StoreUses(log), from as real, to as real)
  {
    if log == [] {
    } else {
      var n := |log| - 1;
      CachedIsWithinCharged(log[..n], from, to);
      assert Accounted(log[n]);
    }
  }

  /** The bandwidth ceiling: however many rounds run, whatever peers report and deliver, the bytes the rounds
    * count as cached in any span of ticks are at most one window's worth plus what the span refills, and the
    * fetches issued obey the same law. The bytes that landed are those very bytes, and so obey it too, exactly
    * while the pulls of the span keep their caps; a pull over its cap lands uncounted. */
  lemma CeilingAcrossRounds(
    rounds: seq<RoundInput>, w: World, storesPerWindow: nat, bytesPerWindow: nat, windowTicks: nat, from: nat, to: nat)
    requires Scheduled(rounds) && windowTicks >= 1 && from <= to
    ensures var log := Live(rounds, FreshLimiter(storesPerWindow, bytesPerWindow, windowTicks), NO_CALLS, w).log;
      && CachedIn(log, from, to) as real
           <= T.Ceiling(bytesPerWindow as real, bytesPerWindow as real / windowTicks as real, EPSILON, from as real,
                        to as real)
      && FetchesIn(log, from, to) as real
           <= T.Ceiling(storesPerWindow as real, storesPerWindow as real / windowTicks as real, EPSILON, from as real,
                        to as real)
      && (LandedIn(log, from, to) == CachedIn(log, from, to) <==> PullsKeepTheirCap(log, from, to))
      && (PullsKeepTheirCap(log, from, to) ==>
            LandedIn(log, from, to) as real
              <= T.Ceiling(bytesPerWindow as real, bytesPerWindow as real / windowTicks as real, EPSILON,
                           from as real, to as real))
  {
    var l := FreshLimiter(storesPerWindow, bytesPerWindow, windowTicks);
    var life := Live(rounds, l, NO_CALLS, w);
    LifeStaysInStep(rounds, l, NO_CALLS, w);
    LimitsNeverChange(rounds, l, NO_CALLS, w);
    LifeIsAccounted(rounds, l, NO_CALLS, w);
    assert forall i :: 0 <= i < |life.log| ==> Tallied(life.log[i]) by {
      assert forall i :: 0 <= i < |life.log| ==> Accounted(life.log[i]);
    }
    CeilingOfARecord(life.log, life.limiter, from, to);
    CountedIsLandedExactlyWhen(life.log, from, to);
  }

  /** What a record in step with its limiter can have let through. */
  lemma CeilingOfARecord(log: seq<Charge>, l: Limiter, from: nat, to: nat)
    requires InStep(log, l) && from <= to
    requires l.bytes.capacity >= 0.0 && l.stores.capacity >= 0.0
    requires forall i :: 0 <= i < |log| ==> Accounted(log[i])
    ensures CachedIn(log, from, to) as real
         <= T.Ceiling(l.bytes.capacity, l.bytes.refillPerTick, EPSILON, from as real, to as real)
    ensures FetchesIn(log, from, to) as real
         <= T.Ceiling(l.stores.capacity, l.stores.refillPerTick, EPSILON, from as real, to as real)
  {
    CachedIsWithinCharged(log, from, to);
    T.WindowLaw(ByteUses(log), l.bytes.capacity, l.bytes.refillPerTick, EPSILON, from as real, to as real);
    T.WindowLaw(StoreUses(log), l.stores.capacity, l.stores.refillPerTick, EPSILON, from as real, to as real);
  }

  predicate SameLimits(a: Limiter, b: Limiter) {
    && a.bytes.capacity == b.bytes.capacity && a.bytes.refillPerTick == b.bytes.refillPerTick
    && a.stores.capacity == b.stores.capacity && a.stores.refillPerTick == b.stores.refillPerTick
  }

  lemma {:induction false} LoopLimitsNeverChange(
    st: Loop, sized: seq<SizedCandidate>, selected: seq<nat>, held: set<ContentId>, w: World, now: nat)
    requires ValidSelection(selected, |sized|)
    ensures SameLimits(FetchAll(st, sized, selected, held, w, now).limiter, st.limiter)
  {
    if selected == [] {
    } else {
      LoopLimitsNeverChange(st, sized, selected[..|selected| - 1], held, w, now);
    }
  }

  lemma {:induction false} LimitsNeverChange(rounds: seq<RoundInput>, l: Limiter, f: FetchState, w: World)
    requires Scheduled(rounds)
    ensures SameLimits(Live(rounds, l, f, w).limiter, l)
  {
    if rounds == [] {
    } else {
      var n := |rounds| - 1;
      var i := rounds[n];
      LimitsNeverChange(rounds[..n], l, f, w);
      var before := Live(rounds[..n], l, f, w);
      LoopLimitsNeverChange(i.Start(before.limiter, before.fetcher), i.Sized().sized, i.Selected(), i.held, w, i.tick);
    }
  }

  // ---------------------------------------------------------------------------------------------
  // What a round does, candidate by candidate
  // ---------------------------------------------------------------------------------------------

  /** What a bucket holds at a tick: its tokens and what each tick since has poured in, up to the capacity. */
  function HeldAt(b: BucketState, now: nat): real {
    if now <= b.lastTick then b.tokens
    else
      var gained := b.tokens + (now - b.lastTick) as real * b.refillPerTick;
      if gained <= b.capacity then gained else b.capacity
  }

  /** The limiter's answer, exactly: both buckets hold enough, to within the slack; and a charge leaves each with what
    * it held less what it paid, a refusal with what it held. */
  lemma AdmitsExactlyWhen(l: Limiter, sizeBytes: nat, now: nat)
    ensures var stores, bytes := HeldAt(l.stores, now), HeldAt(l.bytes, now);
      var (after, ok) := Admit(l, sizeBytes, now);
      && (ok <==> stores + EPSILON >= 1.0 && bytes + EPSILON >= sizeBytes as real)
      && after.stores.tokens == stores - (if ok then 1.0 else 0.0)
      && after.bytes.tokens == bytes - (if ok then sizeBytes as real else 0.0)
  {
  }

  /** One selected candidate, exactly. One already held is counted as such and nothing else happens; one for which
    * nothing remains is passed over; one the limiter refuses is deferred; and any other is fetched, once, under a cap
    * that is exactly the smaller of its size and what remains. The fetch caches what its pull lands when that is within
    * the cap, and then exactly that is counted and taken off what remains; anything else is discarded. So an admitted
    * candidate that fits what remains, and whose pull lands within its size, is cached. */
  lemma ACandidateIsFetchedUnderTheSmaller(st: Loop, sc: SizedCandidate, held: set<ContentId>, w: World, now: nat)
    ensures var next := FetchStep(st, sc, held, w, now);
      var cap := if sc.sizeBytes <= st.remaining then sc.sizeBytes else st.remaining;
      var admitted := HeldAt(st.limiter.stores, now) + EPSILON >= 1.0
                      && HeldAt(st.limiter.bytes, now) + EPSILON >= sc.sizeBytes as real;
      var o, o' := st.outcome, next.outcome;
      && (sc.contentId in held ==> next == st.(outcome := o.(alreadyHeld := o.alreadyHeld + 1)))
      && (sc.contentId !in held && cap == 0 ==> next == st.(capZero := st.capZero + 1))
      && (sc.contentId !in held && cap > 0 && !admitted ==>
            o' == o.(rateLimited := o.rateLimited + 1) && next.remaining == st.remaining && next.fetcher == st.fetcher)
      && (sc.contentId !in held && cap > 0 && admitted ==>
            && next.fetcher == Fetch(w, st.fetcher, cap).0
            && |next.log| == |st.log| + 1 && next.log[|st.log|].cap == cap
            && var pulled := w.lookup(st.fetcher.lookups).Some? && w.anchored(st.fetcher.gates);
              match w.warm(st.fetcher.warms)
              case Held(bytes) =>
                if pulled && bytes <= cap then
                  && o' == o.(cached := o.cached + 1, cachedBytes := o.cachedBytes + bytes)
                  && next.remaining == st.remaining - bytes
                else o' == o.(discarded := o.discarded + 1) && next.remaining == st.remaining
              case AlreadyHeld =>
                && o' == (if pulled then o.(cached := o.cached + 1) else o.(discarded := o.discarded + 1))
                && next.remaining == st.remaining
              case _ => o' == o.(discarded := o.discarded + 1) && next.remaining == st.remaining)
  {
    AdmitsExactlyWhen(st.limiter, sc.sizeBytes, now);
  }

  /** These places of the selection are, in order, those the limiter was asked about; every other one was held, or was
    * passed over with nothing remaining. */
  ghost predicate AskedInOrder(r: Loop, before: nat, sized: seq<SizedCandidate>, selected: seq<nat>,
                               held: set<ContentId>, picks: seq<nat>)
    requires ValidSelection(selected, |sized|)
  {
    && |r.log| == before + |picks| && (forall j, k :: 0 <= j < k < |picks| ==> picks[j] < picks[k])
    && (forall k :: 0 <= k < |picks| ==>
          && picks[k] < |selected| && var sc := sized[selected[picks[k]]];
          && sc.contentId !in held
          && r.log[before + k].contentId == sc.contentId && r.log[before + k].sizeBytes == sc.sizeBytes)
    && OthersPassedOver(r.remaining, sized, selected, held, picks)
  }

  ghost predicate OthersPassedOver(remaining: nat, sized: seq<SizedCandidate>, selected: seq<nat>, held: set<ContentId>,
                                   picks: seq<nat>)
    requires ValidSelection(selected, |sized|)
  {
    forall i :: 0 <= i < |selected| && i !in picks ==>
      sized[selected[i]].contentId in held || sized[selected[i]].sizeBytes == 0 || remaining == 0
  }

  /** A round goes through its selection in the selector's order and leaves nothing out: each candidate not held is put
    * to the limiter, for its own size, until nothing remains of the sub-budget. */
  lemma {:induction false} ARoundGoesInOrder(
    st: Loop, sized: seq<SizedCandidate>, selected: seq<nat>, held: set<ContentId>, w: World, now: nat)
    returns (picks: seq<nat>)
    requires ValidSelection(selected, |sized|)
    ensures AskedInOrder(FetchAll(st, sized, selected, held, w, now), |st.log|, sized, selected, held, picks)
  {
    if selected == [] {
      picks := [];
    } else {
      var n := |selected| - 1;
      picks := ARoundGoesInOrder(st, sized, selected[..n], held, w, now);
      var before := FetchAll(st, sized, selected[..n], held, w, now);
      var sc := sized[selected[n]];
      OneStepOfTheLog(before, sc, held, w, now);
      picks := AskedOneMore(before, FetchStep(before, sc, held, w, now), |st.log|, sized, selected, held, picks);
    }
  }

  lemma AskedOneMore(r: Loop, next: Loop, before: nat, sized: seq<SizedCandidate>, selected: seq<nat>,
                     held: set<ContentId>, picks: seq<nat>) returns (more: seq<nat>)
    requires ValidSelection(selected, |sized|) && selected != []
    requires AskedInOrder(r, before, sized, selected[..|selected| - 1], held, picks)
    requires LogStep(r, next, sized[selected[|selected| - 1]], held)
    ensures AskedInOrder(next, before, sized, selected, held, more)
  {
    var n, sc := |selected| - 1, sized[selected[|selected| - 1]];
    assert forall k :: 0 <= k < |r.log| ==> next.log[k] == r.log[k];
    more := if sc.contentId !in held && Min(sc.sizeBytes, r.remaining) > 0 then picks + [n] else picks;
    OneMorePassedOver(r.remaining, next.remaining, sized, selected, held, picks, more);
  }

  lemma OneMorePassedOver(before: nat, remaining: nat, sized: seq<SizedCandidate>, selected: seq<nat>,
                          held: set<ContentId>, picks: seq<nat>, more: seq<nat>)
    requires ValidSelection(selected, |sized|) && selected != [] && remaining <= before
    requires OthersPassedOver(before, sized, selected[..|selected| - 1], held, picks)
    requires var n, sc := |selected| - 1, sized[selected[|selected| - 1]];
      more == if sc.contentId !in held && Min(sc.sizeBytes, before) > 0 then picks + [n] else picks
    ensures OthersPassedOver(remaining, sized, selected, held, more)
  {
    var n := |selected| - 1;
    forall i | 0 <= i < |selected| && i !in more
      ensures sized[selected[i]].contentId in held || sized[selected[i]].sizeBytes == 0 || remaining == 0
    {
      assert i < n ==> selected[..n][i] == selected[i] && i !in picks;
      assert i == n ==> n in picks + [n];
    }
  }

  /** One step adds its own call to the record, or none. */
  ghost predicate LogStep(st: Loop, next: Loop, sc: SizedCandidate, held: set<ContentId>) {
    && next.remaining <= st.remaining
    && if sc.contentId !in held && Min(sc.sizeBytes, st.remaining) > 0 then
         && |next.log| == |st.log| + 1 && next.log[..|st.log|] == st.log
         && next.log[|st.log|].contentId == sc.contentId && next.log[|st.log|].sizeBytes == sc.sizeBytes
       else next.log == st.log
  }

  lemma OneStepOfTheLog(st: Loop, sc: SizedCandidate, held: set<ContentId>, w: World, now: nat)
    ensures LogStep(st, FetchStep(st, sc, held, w, now), sc, held)
  {
  }

  lemma AWindowFills(b: BucketState, now: nat, windowTicks: nat)
    requires windowTicks >= 1 && b.capacity >= 0.0 && b.refillPerTick == b.capacity / windowTicks as real
    requires b.tokens >= -EPSILON && now >= b.lastTick + windowTicks
    ensures HeldAt(b, now) >= b.capacity - EPSILON
  {
    var whole := windowTicks as real;
    var more := (now - b.lastTick) as real - whole;
    T.ProductNonNegative(1.0 / whole, b.capacity);
    assert b.capacity / whole == 1.0 / whole * b.capacity;
    T.ProductNonNegative(more, b.refillPerTick);
    assert whole * b.refillPerTick == b.capacity;
    assert (now - b.lastTick) as real * b.refillPerTick == whole * b.refillPerTick + more * b.refillPerTick;
  }

  /** The other side of the ceiling: a new limiter has room for anything a window may hold, and after any rounds at all
    * one window with no round in it makes that room again. */
  lemma AnIdleWindowAdmits(rounds: seq<RoundInput>, w: World, storesPerWindow: nat, bytesPerWindow: nat,
                           windowTicks: nat, sizeBytes: nat, now: nat)
    requires Scheduled(rounds) && windowTicks >= 1 && storesPerWindow >= 1 && sizeBytes <= bytesPerWindow
    requires rounds != [] ==> now >= windowTicks + rounds[|rounds| - 1].tick
    ensures var l := Live(rounds, FreshLimiter(storesPerWindow, bytesPerWindow, windowTicks), NO_CALLS, w).limiter;
      Admit(l, sizeBytes, now).1
  {
    var full := FreshLimiter(storesPerWindow, bytesPerWindow, windowTicks);
    var life := Live(rounds, full, NO_CALLS, w);
    LifeStaysInStep(rounds, full, NO_CALLS, w);
    LimitsNeverChange(rounds, full, NO_CALLS, w);
    NeverFarBelowZero(life.log, life.limiter);
    if rounds != [] {
      ALimiterFills(life.limiter, storesPerWindow, bytesPerWindow, windowTicks, now);
    } else {
      AFullBucketStaysFull(full.stores, now);
      AFullBucketStaysFull(full.bytes, now);
    }
    HoldingEnoughAdmits(life.limiter, sizeBytes, now);
  }

  lemma ALimiterFills(l: Limiter, storesPerWindow: nat, bytesPerWindow: nat, windowTicks: nat, now: nat)
    requires windowTicks >= 1 && SameLimits(l, FreshLimiter(storesPerWindow, bytesPerWindow, windowTicks))
    requires l.stores.tokens >= -EPSILON && l.bytes.tokens >= -EPSILON
    requires l.stores.lastTick == l.bytes.lastTick && now >= l.bytes.lastTick + windowTicks
    ensures HeldAt(l.stores, now) >= l.stores.capacity - EPSILON && HeldAt(l.bytes, now) >= l.bytes.capacity - EPSILON
  {
    AWindowFills(l.stores, now, windowTicks);
    AWindowFills(l.bytes, now, windowTicks);
  }

  lemma AFullBucketStaysFull(b: BucketState, now: nat)
    requires b.tokens == b.capacity && b.refillPerTick >= 0.0
    ensures HeldAt(b, now) >= b.capacity - EPSILON
  {
    if now > b.lastTick { T.ProductNonNegative((now - b.lastTick) as real, b.refillPerTick); }
  }

  lemma HoldingEnoughAdmits(l: Limiter, sizeBytes: nat, now: nat)
    requires HeldAt(l.stores, now) >= l.stores.capacity - EPSILON && l.stores.capacity >= 1.0
    requires HeldAt(l.bytes, now) >= l.bytes.capacity - EPSILON && l.bytes.capacity >= sizeBytes as real
    ensures Admit(l, sizeBytes, now).1
  {
    AdmitsExactlyWhen(l, sizeBytes, now);
  }

  lemma NeverFarBelowZero(log: seq<Charge>, l: Limiter)
    requires InStep(log, l)
    ensures l.stores.tokens >= -EPSILON && l.bytes.tokens >= -EPSILON
  {
  }

  /** How many of the first `i` candidates come with no usable size, each of which may take a probe. */
  ghost function Unsized(cs: seq<Candidate>, i: nat): nat
    requires i <= |cs|
  {
    |set j | 0 <= j < i && (cs[j].sizeHint.None? || cs[j].sizeHint == Some(0))|
  }

  lemma UnsizedOneMore(cs: seq<Candidate>, i: nat)
    requires i < |cs|
    ensures Unsized(cs, i + 1)
         == Unsized(cs, i) + (if cs[i].sizeHint.None? || cs[i].sizeHint == Some(0) then 1 else 0)
  {
    var before := set j | 0 <= j < i && (cs[j].sizeHint.None? || cs[j].sizeHint == Some(0));
    var after := set j | 0 <= j < i + 1 && (cs[j].sizeHint.None? || cs[j].sizeHint == Some(0));
    assert after == if cs[i].sizeHint.None? || cs[i].sizeHint == Some(0) then before + {i} else before;
  }

  lemma UnsizedOfAPrefix(cs: seq<Candidate>, n: nat, i: nat)
    requires i <= n <= |cs|
    ensures Unsized(cs[..n], i) == Unsized(cs, i)
  {
    var whole := set j | 0 <= j < i && (cs[j].sizeHint.None? || cs[j].sizeHint == Some(0));
    var prefix := set j | 0 <= j < i && (cs[..n][j].sizeHint.None? || cs[..n][j].sizeHint == Some(0));
    assert prefix == whole;
  }

  /** The size candidate `i` is given: the one it came with, else what its probe reports, if it is among the first
    * thirty-two that need one; a size of zero is no size. */
  ghost function SizeGiven(cs: seq<Candidate>, answers: nat -> Option<nat>, i: nat): nat
    requires i < |cs|
  {
    if cs[i].sizeHint.Some? && cs[i].sizeHint.value > 0 then cs[i].sizeHint.value
    else if Unsized(cs, i) < 32 && answers(Unsized(cs, i)).Some? then answers(Unsized(cs, i)).value
    else 0
  }

  /** These places are, in order, those of the candidates given a size, and this is what each of them becomes. */
  ghost predicate AreThoseGivenASize(cs: seq<Candidate>, given: seq<nat>, sized: seq<SizedCandidate>, picks: seq<nat>) {
    && (forall j, k :: 0 <= j < k < |picks| ==> picks[j] < picks[k])
    && EachBecomes(cs, given, sized, picks) && AllGivenASize(given, picks)
  }

  ghost predicate EachBecomes(cs: seq<Candidate>, given: seq<nat>, sized: seq<SizedCandidate>, picks: seq<nat>) {
    && |given| == |cs| && |sized| == |picks|
    && forall k :: 0 <= k < |picks| ==> picks[k] < |cs| && Becomes(cs[picks[k]], given[picks[k]], sized[k])
  }

  predicate Becomes(c: Candidate, size: nat, sized: SizedCandidate) {
    && sized.contentId == c.contentId && sized.knownProviderCount == c.knownProviderCount && sized.sizeBytes == size
  }

  ghost predicate AllGivenASize(given: seq<nat>, picks: seq<nat>) {
    forall i :: 0 <= i < |given| ==> (i in picks <==> given[i] > 0)
  }

  /** What sizing gives, exactly: the candidates that have or are given a size, all of them and in their order. */
  lemma {:induction false} SizedAreThoseGivenASize(cs: seq<Candidate>, answers: nat -> Option<nat>)
    returns (given: seq<nat>, picks: seq<nat>)
    ensures AreThoseGivenASize(cs, given, ResolveAll(cs, answers).sized, picks)
    ensures forall i :: 0 <= i < |cs| ==> given[i] == SizeGiven(cs, answers, i)
    ensures ResolveAll(cs, answers).used == Min(32, Unsized(cs, |cs|))
  {
    if cs == [] {
      given, picks := [], [];
      assert Unsized(cs, 0) == 0;
    } else {
      var n := |cs| - 1;
      var before;
      before, picks := SizedAreThoseGivenASize(cs[..n], answers);
      UnsizedOfAPrefix(cs, n, n);
      SizedOneMore(cs, answers);
      given := before + [SizeGiven(cs, answers, n)];
      forall i | 0 <= i < n ensures given[i] == SizeGiven(cs, answers, i) { GivenInAPrefix(cs, answers, n, i); }
      picks := GivenOneMore(cs, before, ResolveAll(cs[..n], answers).sized, picks, SizeGiven(cs, answers, n));
    }
  }

  lemma {:induction false} SizedOneMore(cs: seq<Candidate>, answers: nat -> Option<nat>)
    requires cs != [] && ResolveAll(cs[..|cs| - 1], answers).used == Min(32, Unsized(cs, |cs| - 1))
    ensures ResolveAll(cs, answers).sized
         == WithOneMore(cs, ResolveAll(cs[..|cs| - 1], answers).sized, SizeGiven(cs, answers, |cs| - 1))
    ensures ResolveAll(cs, answers).used == Min(32, Unsized(cs, |cs|))
  {
    UnsizedOneMore(cs, |cs| - 1);
  }

  function WithOneMore(cs: seq<Candidate>, before: seq<SizedCandidate>, size: nat): seq<SizedCandidate>
    requires cs != []
  {
    var c := cs[|cs| - 1];
    if size > 0 then before + [SizedCandidate(c.contentId, size, c.knownProviderCount)] else before
  }

  lemma GivenOneMore(cs: seq<Candidate>, given: seq<nat>, before: seq<SizedCandidate>, picks: seq<nat>, size: nat)
    returns (more: seq<nat>)
    requires cs != [] && AreThoseGivenASize(cs[..|cs| - 1], given, before, picks)
    ensures AreThoseGivenASize(cs, given + [size], WithOneMore(cs, before, size), more)
  {
    var n := |cs| - 1;
    more := if size > 0 then picks + [n] else picks;
    assert forall k :: 0 <= k < |picks| ==> picks[k] < n;
    assert EachBecomes(cs, given + [size], WithOneMore(cs, before, size), more) by {
      EachOneMore(cs, given, before, picks, size);
    }
    assert AllGivenASize(given + [size], more) by { AllGivenOneMore(given, picks, size); }
  }

  lemma EachOneMore(cs: seq<Candidate>, given: seq<nat>, before: seq<SizedCandidate>, picks: seq<nat>, size: nat)
    requires cs != [] && EachBecomes(cs[..|cs| - 1], given, before, picks)
    ensures EachBecomes(cs, given + [size], WithOneMore(cs, before, size),
                        if size > 0 then picks + [|cs| - 1] else picks)
  {
    assert forall k :: 0 <= k < |picks| ==> Becomes(cs[..|cs| - 1][picks[k]], given[picks[k]], before[k]);
  }

  lemma AllGivenOneMore(given: seq<nat>, picks: seq<nat>, size: nat)
    requires AllGivenASize(given, picks) && forall k :: 0 <= k < |picks| ==> picks[k] < |given|
    ensures AllGivenASize(given + [size], if size > 0 then picks + [|given|] else picks)
  {
  }

  lemma GivenInAPrefix(cs: seq<Candidate>, answers: nat -> Option<nat>, n: nat, i: nat)
    requires i < n <= |cs|
    ensures SizeGiven(cs[..n], answers, i) == SizeGiven(cs, answers, i)
  {
    UnsizedOfAPrefix(cs, n, i);
  }

  /** When a round runs at all: switched on, with the slot free, and a tenth of the cache worth bothering with; it then
    * starts from exactly that tenth. */
  lemma RunsExactlyWhen(i: RoundInput, l: Limiter, f: FetchState)
    ensures i.Skip() == Some(Disabled) <==> !i.enabled
    ensures i.Skip() == Some(Busy) <==> i.enabled && i.busy
    ensures i.Skip() == Some(SmallDisk) <==> i.enabled && !i.busy && i.cacheCapBytes < 10 * 64 * 1024 * 1024
    ensures i.Skip() == None <==> i.enabled && !i.busy && i.cacheCapBytes >= 10 * 64 * 1024 * 1024
    ensures 10 * i.Start(l, f).remaining <= i.cacheCapBytes < 10 * i.Start(l, f).remaining + 10
  {
  }
}
