/** The per-requestor gate in front of the miss lookup: a token bucket per requestor, kept in a table of
  * bounded size that may drop a bucket only while it is full.
  *
  * The classes follow the code statement by statement. `CheckStep` is the value they compute, and the
  * theorems at the end are about whole runs of it: the bounded table behaves for each requestor like one
  * private bucket that is never evicted. */
module RateLimit {
  import C = Common
  import T = TokenAccounting

  // ---------------------------------------------------------------------------------------------
  // Requestor identity
  // ---------------------------------------------------------------------------------------------

  datatype RequestorId = Local | Peer(id: string) | Anonymous(ip: string) {

    /** The table key of this requestor. */
    function Key(): string {
      match this
      case Local => "local"
      case Peer(id) => "peer:" + id
      case Anonymous(ip) => "anon:" + ip
    }
  }

  /** Two requestors share a bucket only if they are the same requestor. */
  lemma KeyIsInjective(a: RequestorId, b: RequestorId)
    ensures a.Key() == b.Key() <==> a == b
  {
    assert a.Peer? ==> a.Key()[5..] == a.id;
    assert b.Peer? ==> b.Key()[5..] == b.id;
    assert a.Anonymous? ==> a.Key()[5..] == a.ip;
    assert b.Anonymous? ==> b.Key()[5..] == b.ip;
    assert a.Key()[0] == (match a case Local => 'l' case Peer(_) => 'p' case Anonymous(_) => 'a');
    assert b.Key()[0] == (match b case Local => 'l' case Peer(_) => 'p' case Anonymous(_) => 'a');
  }

  // ---------------------------------------------------------------------------------------------
  // One bucket
  // ---------------------------------------------------------------------------------------------

  /** The two parameters every bucket of one table shares, already clamped non-negative. */
  datatype Rate = Rate(capacity: real, refillPerSec: real) {
    predicate Valid() { capacity >= 0.0 && refillPerSec >= 0.0 }
  }

  datatype BucketState = BucketState(tokens: real, lastRefill: real)

  function ClampNonNegative(x: real): real { if x < 0.0 then 0.0 else x }

  /** Seconds from `earlier` to `now`; a clock that went backwards reads as no time at all. */
  function Elapsed(earlier: real, now: real): real { if now < earlier then 0.0 else now - earlier }

  function Refilled(b: BucketState, rate: Rate, now: real): BucketState {
    BucketState(C.LesserOf(b.tokens + Elapsed(b.lastRefill, now) * rate.refillPerSec, rate.capacity), now)
  }

  function FreshBucket(rate: Rate, now: real): BucketState { BucketState(rate.capacity, now) }

  predicate Full(b: BucketState, rate: Rate, now: real) { Refilled(b, rate, now).tokens >= rate.capacity }

  /** The bucket after one attempt to spend a token at `now`, and whether the attempt succeeded. */
  function Acquired(b: BucketState, rate: Rate, now: real): (BucketState, bool) {
    var r := Refilled(b, rate, now);
    if r.tokens >= 1.0 then (r.(tokens := r.tokens - 1.0), true) else (r, false)
  }

  class TokenBucket {
    const capacity: real
    const refillPerSec: real
    ghost const owner: string  // the table key this bucket was made for
    var tokens: real
    var lastRefill: real

    ghost function State(): BucketState reads this { BucketState(tokens, lastRefill) }

    ghost function Limits(): Rate { Rate(capacity, refillPerSec) }

    constructor (capacity: real, refillPerSec: real, now: real, ghost owner: string)
      ensures this.owner == owner
      ensures Limits() == Rate(ClampNonNegative(capacity), ClampNonNegative(refillPerSec))
      ensures State() == FreshBucket(Limits(), now)
    {
      this.capacity := ClampNonNegative(capacity);
      this.refillPerSec := ClampNonNegative(refillPerSec);
      this.owner := owner;
      tokens := ClampNonNegative(capacity);
      lastRefill := now;
    }

    method Refill(now: real)
      modifies this
      ensures State() == Refilled(old(State()), Limits(), now)
    {
      var elapsed := Elapsed(lastRefill, now);
      tokens := C.LesserOf(tokens + elapsed * refillPerSec, capacity);
      lastRefill := now;
    }

    method TryAcquire(now: real) returns (admitted: bool)
      modifies this
      ensures (State(), admitted) == Acquired(old(State()), Limits(), now)
    {
      Refill(now);
      if tokens >= 1.0 {
        tokens := tokens - 1.0;
        admitted := true;
      } else {
        admitted := false;
      }
    }

    /** Reading fullness refills the bucket on the way, as the code does. */
    method IsFull(now: real) returns (full: bool)
      modifies this
      ensures State() == Refilled(old(State()), Limits(), now)
      ensures full == Full(old(State()), Limits(), now)
    {
      Refill(now);
      full := tokens >= capacity;
    }
  }

  // ---------------------------------------------------------------------------------------------
  // The bounded table
  // ---------------------------------------------------------------------------------------------

  const MAX_TRACKED_REQUESTORS: nat := 4096

  type Table = map<string, BucketState>

  /** The table with every idle (full) bucket dropped and every other one brought up to date. */
  function WithoutIdle(t: Table, rate: Rate, now: real): Table {
    map k | k in t && !Full(t[k], rate, now) :: Refilled(t[k], rate, now)
  }

  /** The table after that sweep has looked at one key. */
  function Visited(t: Table, rate: Rate, now: real, key: string): Table
    requires key in t
  {
    if Full(t[key], rate, now) then t - {key} else t[key := Refilled(t[key], rate, now)]
  }

  /** The table part-way through the sweep, with the keys in `pending` not visited yet. */
  ghost function Swept(t: Table, pending: set<string>, rate: Rate, now: real): Table {
    map k | k in t && (k in pending || !Full(t[k], rate, now)) ::
      if k in pending then t[k] else Refilled(t[k], rate, now)
  }

  lemma SweepOne(t: Table, pending: set<string>, rate: Rate, now: real, key: string)
    requires key in t && key in pending
    ensures key in Swept(t, pending, rate, now)
    ensures Swept(t, pending - {key}, rate, now) == Visited(Swept(t, pending, rate, now), rate, now, key)
  {
  }

  /** What the three ways a check can end are. */
  datatype Outcome = Admitted | Exhausted | TableSaturated

  /** The table with a full bucket for `key` unless it already has one. */
  function Enrolled(t: Table, rate: Rate, key: string, now: real): Table {
    if key in t then t else t[key := FreshBucket(rate, now)]
  }

  function Spend(t: Table, rate: Rate, key: string, now: real): (Table, Outcome) {
    var entered := Enrolled(t, rate, key, now);
    var (after, ok) := Acquired(entered[key], rate, now);
    (entered[key := after], if ok then Admitted else Exhausted)
  }

  /** A newcomer has found the table at its limit. */
  predicate Crowded(t: Table, key: string) { key !in t && |t| >= MAX_TRACKED_REQUESTORS }

  function RoomMade(t: Table, rate: Rate, key: string, now: real): Table {
    if Crowded(t, key) then WithoutIdle(t, rate, now) else t
  }

  /** One call of the limiter, on values. */
  function CheckStep(t: Table, rate: Rate, key: string, now: real): (Table, Outcome) {
    var kept := RoomMade(t, rate, key, now);
    if Crowded(kept, key) then (kept, TableSaturated) else Spend(kept, rate, key, now)
  }

  class MissRateLimiter {
    const capacity: real
    const refillPerSec: real
    var buckets: map<string, TokenBucket>
    ghost var table: Table  // what the buckets hold, key by key
    ghost var Repr: set<TokenBucket>

    ghost function Limits(): Rate { Rate(ClampNonNegative(capacity), ClampNonNegative(refillPerSec)) }

    /** Bucket `b` is `key`'s own, under this table's limits, and holds what `table` says. */
    ghost predicate Tracks(key: string, b: TokenBucket)
      reads this, b
    {
      b in Repr && b.owner == key && b.Limits() == Limits() && key in table && b.State() == table[key]
    }

    ghost predicate Valid()
      reads this, Repr
    {
      && table.Keys == buckets.Keys
      && (forall k :: k in buckets ==> buckets[k] in Repr && Tracks(k, buckets[k]))
    }

    constructor (capacity: real, refillPerSec: real)
      ensures Valid() && table == map[] && Repr == {}
      ensures Limits() == Rate(ClampNonNegative(capacity), ClampNonNegative(refillPerSec))
    {
      this.capacity, this.refillPerSec := capacity, refillPerSec;
      buckets, table, Repr := map[], map[], {};
    }

    /** Drop one bucket if it is idle. Every other bucket keeps its state. */
    method Visit(key: string, now: real)
      requires Valid() && key in buckets
      modifies this`buckets, this`table, buckets[key]
      ensures Valid() && table == Visited(old(table), Limits(), now, key)
    {
      var full := buckets[key].IsFull(now);
      if full {
        buckets, table := buckets - {key}, table - {key};
      } else {
        table := table[key := buckets[key].State()];
      }
    }

    /** Drop every idle bucket, visiting the table in an arbitrary order. */
    method RetainActive(now: real)
      requires Valid()
      modifies this`buckets, this`table, Repr
      ensures Valid() && table == WithoutIdle(old(table), Limits(), now)
    {
      var pending := buckets.Keys;
      ghost var before := table;
      while pending != {}
        invariant Valid() && pending <= before.Keys
        invariant table == Swept(before, pending, Limits(), now)
        decreases pending
      {
        var key :| key in pending;
        SweepOne(before, pending, Limits(), now, key);
        Visit(key, now);
        assert Valid();
        pending := pending - {key};
      }
    }

    /** Make sure the table has a place for `key`: when it is saturated by others, reclaim the idle ones. */
    method MakeRoom(key: string, now: real) returns (room: bool)
      requires Valid()
      modifies this`buckets, this`table, Repr
      ensures Valid()
      ensures table == RoomMade(old(table), Limits(), key, now)
      ensures room <==> !Crowded(table, key)
    {
      assert |table| == |table.Keys| && |buckets| == |buckets.Keys|;
      room := true;
      if key !in buckets && |buckets| >= MAX_TRACKED_REQUESTORS {
        RetainActive(now);
        assert |table| == |table.Keys| && |buckets| == |buckets.Keys|;
        room := |buckets| < MAX_TRACKED_REQUESTORS;
      }
    }

    /** Spend one token of `key`, giving it a full bucket first if it has none. Nobody else's moves. */
    method SpendFrom(key: string, now: real) returns (admitted: bool)
      requires Valid()
      modifies this`buckets, this`table, this`Repr, Repr
      ensures Valid() && fresh(Repr - old(Repr))
      ensures (table, if admitted then Admitted else Exhausted) == Spend(old(table), Limits(), key, now)
    {
      Enroll(key, now);
      assert fresh(Repr - old(Repr));
      admitted := Take(key, now);
      assert Valid();
    }

    /** Give `key` a full bucket unless it already has one. */
    method Enroll(key: string, now: real)
      requires Valid()
      modifies this`buckets, this`table, this`Repr
      ensures Valid() && fresh(Repr - old(Repr)) && key in buckets
      ensures table == Enrolled(old(table), Limits(), key, now)
    {
      if key !in buckets {
        var b := new TokenBucket(capacity, refillPerSec, now, key);
        buckets, table, Repr := buckets[key := b], table[key := b.State()], Repr + {b};
      }
    }

    /** One attempt on a tracked requestor's own bucket. */
    method Take(key: string, now: real) returns (admitted: bool)
      requires Valid() && key in buckets
      modifies this`table, buckets[key]
      ensures Valid() && table == old(table)[key := table[key]]
      ensures (table[key], admitted) == Acquired(old(table[key]), Limits(), now)
    {
      admitted := buckets[key].TryAcquire(now);
      table := table[key := buckets[key].State()];
    }

    /** Admit one lookup for `requestor`, or refuse it. */
    method Check(requestor: RequestorId, now: real) returns (admitted: bool)
      requires Valid()
      modifies this, Repr
      ensures Valid() && fresh(Repr - old(Repr))
      ensures table == CheckStep(old(table), Limits(), requestor.Key(), now).0
      ensures admitted <==> CheckStep(old(table), Limits(), requestor.Key(), now).1 == Admitted
    {
      var key := requestor.Key();
      var room := MakeRoom(key, now);
      if room {
        admitted := SpendFrom(key, now);
      } else {
        admitted := false;
      }
    }
  }

  // ---------------------------------------------------------------------------------------------
  // Why dropping a full bucket is invisible
  // ---------------------------------------------------------------------------------------------

  /** The tokens `key` could spend at `now`, tracked or not. */
  function Available(t: Table, rate: Rate, key: string, now: real): real {
    if key in t then Refilled(t[key], rate, now).tokens else rate.capacity
  }

  /** Nothing in the table lies in the future or outside the bucket. */
  predicate Settled(t: Table, rate: Rate, now: real) {
    forall k :: k in t ==> t[k].lastRefill <= now && 0.0 <= t[k].tokens <= rate.capacity
  }

  lemma RefillTwice(b: BucketState, rate: Rate, t1: real, t2: real)
    requires rate.Valid() && b.lastRefill <= t1 <= t2
    ensures Refilled(Refilled(b, rate, t1), rate, t2) == Refilled(b, rate, t2)
  {
    T.ProductNonNegative(t2 - t1, rate.refillPerSec);
    assert (t1 - b.lastRefill) * rate.refillPerSec + (t2 - t1) * rate.refillPerSec
        == (t2 - b.lastRefill) * rate.refillPerSec;
  }

  lemma RefillStaysInBucket(b: BucketState, rate: Rate, now: real)
    requires rate.Valid() && b.lastRefill <= now && 0.0 <= b.tokens <= rate.capacity
    ensures b.tokens <= Refilled(b, rate, now).tokens <= rate.capacity
    ensures Refilled(b, rate, now).tokens <= b.tokens + (now - b.lastRefill) * rate.refillPerSec
  {
    T.ProductNonNegative(now - b.lastRefill, rate.refillPerSec);
  }

  /** Reclaiming idle buckets changes what no requestor can spend, now or later. */
  lemma ReclaimingIsInvisible(t: Table, rate: Rate, swept: real, key: string, now: real)
    requires rate.Valid() && Settled(t, rate, swept) && swept <= now
    ensures Available(WithoutIdle(t, rate, swept), rate, key, now) == Available(t, rate, key, now)
    ensures Settled(WithoutIdle(t, rate, swept), rate, swept)
  {
    forall k | k in t {
      RefillStaysInBucket(t[k], rate, swept);
    }
    if key in t {
      RefillTwice(t[key], rate, swept, now);
      RefillStaysInBucket(Refilled(t[key], rate, swept), rate, now);
    }
  }

  /** Spending touches one bucket, and takes a token from it exactly when it has one. */
  lemma SpendOnAvailable(t: Table, rate: Rate, key: string, at: real, other: string, now: real)
    requires rate.Valid() && Settled(t, rate, at)
    ensures var (t', o) := Spend(t, rate, key, at);
      && Settled(t', rate, at) && o != TableSaturated
      && (other != key ==> Available(t', rate, other, now) == Available(t, rate, other, now))
      && (o == Admitted <==> Available(t, rate, key, at) >= 1.0)
      && key in t' && t'[key] == BucketState(Available(t, rate, key, at) - (if o == Admitted then 1.0 else 0.0), at)
  {
    var b := Enrolled(t, rate, key, at)[key];
    RefillStaysInBucket(b, rate, at);
    assert Refilled(b, rate, at).tokens == Available(t, rate, key, at);
  }

  /** A bucket just touched holds what it holds. */
  lemma JustTouched(t: Table, rate: Rate, key: string, at: real)
    requires rate.Valid() && key in t && t[key].lastRefill == at && t[key].tokens <= rate.capacity
    ensures Available(t, rate, key, at) == t[key].tokens
  {
  }

  /** One check: a requestor refused for lack of room loses nothing; otherwise exactly one token moves,
    * and only for the requestor that asked. */
  lemma StepOnAvailable(t: Table, rate: Rate, key: string, at: real, other: string, now: real)
    requires rate.Valid() && Settled(t, rate, at) && at <= now
    ensures var (t', o) := CheckStep(t, rate, key, at);
      && Settled(t', rate, at)
      && (o == TableSaturated || other != key ==> Available(t', rate, other, now) == Available(t, rate, other, now))
      && (o != TableSaturated ==>
            && (o == Admitted <==> Available(t, rate, key, at) >= 1.0)
            && Available(t', rate, key, at) == Available(t, rate, key, at) - (if o == Admitted then 1.0 else 0.0)
            && key in t' && t'[key] == BucketState(Available(t', rate, key, at), at))
  {
    var kept := RoomMade(t, rate, key, at);
    if Crowded(t, key) {
      ReclaimingIsInvisible(t, rate, at, other, now);
      ReclaimingIsInvisible(t, rate, at, key, at);
    }
    if !Crowded(kept, key) {
      SpendOnAvailable(kept, rate, key, at, other, now);
      JustTouched(Spend(kept, rate, key, at).0, rate, key, at);
    }
  }

  lemma SweepSize(t: Table, rate: Rate, now: real)
    ensures |WithoutIdle(t, rate, now)| <= |t|
    ensures |WithoutIdle(t, rate, now)| == |t| <==> forall k :: k in t ==> !Full(t[k], rate, now)
  {
    var kept := WithoutIdle(t, rate, now);
    C.SubsetSize(kept.Keys, t.Keys);
    if |kept| == |t| {
      forall k | k in t ensures !Full(t[k], rate, now) { assert k in kept.Keys; }
    }
    if forall k :: k in t ==> !Full(t[k], rate, now) {
      assert kept.Keys == t.Keys;
    }
  }

  /** The table never outgrows its limit, and a check is turned away for lack of room exactly when a
    * newcomer meets a table at its limit in which every bucket is below capacity. */
  lemma StepKeepsTheTableBounded(t: Table, rate: Rate, key: string, now: real)
    requires |t| <= MAX_TRACKED_REQUESTORS
    ensures |CheckStep(t, rate, key, now).0| <= MAX_TRACKED_REQUESTORS
    ensures CheckStep(t, rate, key, now).1 == TableSaturated
       <==> key !in t && |t| == MAX_TRACKED_REQUESTORS && forall k :: k in t ==> !Full(t[k], rate, now)
  {
    SweepSize(t, rate, now);
    var kept := RoomMade(t, rate, key, now);
    assert key in kept ==> key in t;
    if !Crowded(kept, key) {
      SpendSize(kept, rate, key, now);
    }
  }

  lemma SpendSize(t: Table, rate: Rate, key: string, now: real)
    ensures |Spend(t, rate, key, now).0| == if key in t then |t| else |t| + 1
  {
    var after := Spend(t, rate, key, now).0;
    assert after.Keys == t.Keys + {key};
    assert |after| == |after.Keys| && |t| == |t.Keys|;
  }

  // ---------------------------------------------------------------------------------------------
  // Whole runs
  // ---------------------------------------------------------------------------------------------

  datatype Call = Call(key: string, at: real)
  datatype Event = Event(key: string, at: real, outcome: Outcome)

  /** The clock of a run never goes backwards. */
  predicate Ordered(calls: seq<Call>) {
    forall i, j :: 0 <= i < j < |calls| ==> calls[i].at <= calls[j].at
  }

  /** The table after a run from the empty table, and what each call was told. */
  function Run(rate: Rate, calls: seq<Call>): (r: (Table, seq<Event>))
    ensures |r.1| == |calls|
  {
    if calls == [] then (map[], []) else
      var n := |calls| - 1;
      var (t, events) := Run(rate, calls[..n]);
      var (t', o) := CheckStep(t, rate, calls[n].key, calls[n].at);
      (t', events + [Event(calls[n].key, calls[n].at, o)])
  }

  /** What the check `c` made against the table `t` goes into the record as. */
  function Told(t: Table, rate: Rate, c: Call): Event {
    Event(c.key, c.at, CheckStep(t, rate, c.key, c.at).1)
  }

  lemma RunOneMore(rate: Rate, calls: seq<Call>, n: nat)
    requires n + 1 == |calls|
    ensures var t := Run(rate, calls[..n]).0;
      && Run(rate, calls).0 == CheckStep(t, rate, calls[n].key, calls[n].at).0
      && Run(rate, calls).1 == Run(rate, calls[..n]).1 + [Told(t, rate, calls[n])]
  {
  }

  /** The instants at which `key` asked and was not turned away for lack of room. */
  function OwnTimes(events: seq<Event>, key: string): seq<real> {
    if events == [] then [] else
      var e := events[|events| - 1];
      var before := OwnTimes(events[..|events| - 1], key);
      if e.key == key && e.outcome != TableSaturated then before + [e.at] else before
  }

  /** A private bucket that is never evicted: made full at its first use, then asked at each instant. */
  function PrivateBucket(rate: Rate, times: seq<real>): BucketState
    requires times != []
    decreases |times|, 0
  {
    var now := times[|times| - 1];
    Acquired(PrivateBefore(rate, times[..|times| - 1], now), rate, now).0
  }

  function PrivateBefore(rate: Rate, times: seq<real>, now: real): BucketState
    decreases |times|, 1
  {
    if times == [] then FreshBucket(rate, now) else PrivateBucket(rate, times)
  }

  /** Whether that private bucket admits the last of `times`. */
  predicate PrivateAdmits(rate: Rate, times: seq<real>)
    requires times != []
  {
    var now := times[|times| - 1];
    Acquired(PrivateBefore(rate, times[..|times| - 1], now), rate, now).1
  }

  // ---------------------------------------------------------------------------------------------
  // The theorems about runs
  // ---------------------------------------------------------------------------------------------

  lemma RunIsSettled(rate: Rate, calls: seq<Call>, now: real)
    requires rate.Valid() && Ordered(calls)
    requires forall c :: c in calls ==> c.at <= now
    ensures Settled(Run(rate, calls).0, rate, now)
    ensures |Run(rate, calls).0| <= MAX_TRACKED_REQUESTORS
  {
    if calls == [] {
    } else {
      var n := |calls| - 1;
      RunIsSettled(rate, calls[..n], calls[n].at);
      StepOnAvailable(Run(rate, calls[..n]).0, rate, calls[n].key, calls[n].at, calls[n].key, now);
      StepKeepsTheTableBounded(Run(rate, calls[..n]).0, rate, calls[n].key, calls[n].at);
    }
  }

  /** What the private bucket of a requestor could spend at `now`. */
  function PrivateAvailable(rate: Rate, times: seq<real>, now: real): real {
    Refilled(PrivateBefore(rate, times, now), rate, now).tokens
  }

  lemma PrivateStep(rate: Rate, times: seq<real>, at: real, now: real)
    requires rate.Valid() && at <= now
    requires 0.0 <= PrivateAvailable(rate, times, at)
    ensures var spent := if PrivateAdmits(rate, times + [at]) then 1.0 else 0.0;
      var left := BucketState(PrivateAvailable(rate, times, at) - spent, at);
      && PrivateBucket(rate, times + [at]) == left
      && (PrivateAdmits(rate, times + [at]) <==> PrivateAvailable(rate, times, at) >= 1.0)
      && PrivateAvailable(rate, times + [at], now) == Refilled(left, rate, now).tokens
  {
    assert (times + [at])[..|times|] == times;
  }

  /** The instants `e` adds to those at which `key` asked and was not turned away. */
  function OwnShare(e: Event, key: string): seq<real> {
    if e.key == key && e.outcome != TableSaturated then [e.at] else []
  }

  lemma StepMatchesPrivateBucket(t: Table, rate: Rate, c: Call, key: string, own: seq<real>, now: real)
    requires rate.Valid() && Settled(t, rate, c.at) && c.at <= now
    requires Available(t, rate, key, c.at) == PrivateAvailable(rate, own, c.at)
    requires Available(t, rate, key, now) == PrivateAvailable(rate, own, now)
    ensures var (t', o) := CheckStep(t, rate, c.key, c.at);
      && Available(t', rate, key, now)
           == PrivateAvailable(rate, own + OwnShare(Told(t, rate, c), key), now)
      && (key == c.key && o != TableSaturated ==> (o == Admitted <==> PrivateAdmits(rate, own + [c.at])))
  {
    StepOnAvailable(t, rate, c.key, c.at, key, now);
    if key == c.key && CheckStep(t, rate, c.key, c.at).1 != TableSaturated {
      AvailableIsNonNegative(t, rate, key, c.at);
      PrivateStep(rate, own, c.at, now);
    } else {
      assert own + [] == own;
    }
  }

  /** After any run, every requestor can spend exactly what a private, never-evicted bucket used at the
    * same instants would let it spend. */
  lemma {:induction false} TableActsAsPrivateBuckets(rate: Rate, calls: seq<Call>, key: string, now: real)
    requires rate.Valid() && Ordered(calls)
    requires forall c :: c in calls ==> c.at <= now
    ensures Available(Run(rate, calls).0, rate, key, now)
         == PrivateAvailable(rate, OwnTimes(Run(rate, calls).1, key), now)
  {
    if calls == [] {
      assert Elapsed(now, now) * rate.refillPerSec == 0.0;
    } else {
      var n := |calls| - 1;
      var c := calls[n];
      var (t, before) := Run(rate, calls[..n]);
      RunOneMore(rate, calls, n);
      TableActsAsPrivateBuckets(rate, calls[..n], key, c.at);
      TableActsAsPrivateBuckets(rate, calls[..n], key, now);
      RunIsSettled(rate, calls[..n], c.at);
      StepMatchesPrivateBucket(t, rate, c, key, OwnTimes(before, key), now);
      OwnTimesOfOneMore(before, Told(t, rate, c), key);
    }
  }

  lemma OwnTimesOfOneMore(events: seq<Event>, e: Event, key: string)
    ensures OwnTimes(events + [e], key)
         == OwnTimes(events, key) + OwnShare(e, key)
  {
    assert (events + [e])[..|events|] == events;
  }

  lemma AvailableIsNonNegative(t: Table, rate: Rate, key: string, now: real)
    requires rate.Valid() && Settled(t, rate, now)
    ensures 0.0 <= Available(t, rate, key, now) <= rate.capacity
  {
    if key in t {
      RefillStaysInBucket(t[key], rate, now);
    }
  }

  lemma {:induction false} RunOfAPrefix(rate: Rate, calls: seq<Call>, i: nat)
    requires i <= |calls|
    ensures Run(rate, calls).1[..i] == Run(rate, calls[..i]).1
  {
    if i < |calls| {
      var n := |calls| - 1;
      RunOneMore(rate, calls, n);
      RunOfAPrefix(rate, calls[..n], i);
      assert calls[..n][..i] == calls[..i];
    } else {
      assert calls[..i] == calls;
    }
  }

  /** What happened at step `i` of a run. */
  lemma EventOfARun(rate: Rate, calls: seq<Call>, i: nat)
    requires i < |calls|
    ensures Run(rate, calls).1[..i] == Run(rate, calls[..i]).1
    ensures Run(rate, calls).1[i] == Told(Run(rate, calls[..i]).0, rate, calls[i])
  {
    RunOfAPrefix(rate, calls, i);
    RunOfAPrefix(rate, calls, i + 1);
    RunOneMore(rate, calls[..i + 1], i);
    assert calls[..i + 1][..i] == calls[..i];
    assert Run(rate, calls).1[i] == Run(rate, calls).1[..i + 1][i];
  }

  /** Refinement: in any run at a nondecreasing clock, each check is answered either by the private bucket
    * of the requestor that asked (fed that requestor's own calls and nothing else), or by the one
    * permitted divergence, a newcomer meeting a table at its limit with every bucket in use. */
  lemma EachCheckIsAPrivateDecision(rate: Rate, calls: seq<Call>, i: nat)
    requires rate.Valid() && Ordered(calls) && i < |calls|
    ensures var e := Run(rate, calls).1[i];
      var t := Run(rate, calls[..i]).0;
      && e.key == calls[i].key && e.at == calls[i].at
      && (e.outcome == TableSaturated <==>
            e.key !in t && |t| == MAX_TRACKED_REQUESTORS && forall k :: k in t ==> !Full(t[k], rate, e.at))
      && (e.outcome != TableSaturated ==>
            (e.outcome == Admitted <==> PrivateAdmits(rate, OwnTimes(Run(rate, calls).1[..i], e.key) + [e.at])))
  {
    EventOfARun(rate, calls, i);
    var c := calls[i];
    var t := Run(rate, calls[..i]).0;
    RunIsSettled(rate, calls[..i], c.at);
    StepKeepsTheTableBounded(t, rate, c.key, c.at);
    TableActsAsPrivateBuckets(rate, calls[..i], c.key, c.at);
    StepMatchesPrivateBucket(t, rate, c, c.key, OwnTimes(Run(rate, calls[..i]).1, c.key), c.at);
  }

  predicate Counted(e: Event, key: string, from: real, to: real) {
    e.key == key && e.outcome == Admitted && from <= e.at <= to
  }

  /** How many of `key`'s calls in the window [from, to] were admitted. */
  function AdmittedIn(events: seq<Event>, key: string, from: real, to: real): nat {
    if events == [] then 0 else
      var n := |events| - 1;
      AdmittedIn(events[..n], key, from, to) + (if Counted(events[n], key, from, to) then 1 else 0)
  }

  lemma AdmittedOfOneMore(events: seq<Event>, e: Event, key: string, from: real, to: real)
    ensures AdmittedIn(events + [e], key, from, to)
         == AdmittedIn(events, key, from, to) + (if Counted(e, key, from, to) then 1 else 0)
  {
    assert (events + [e])[..|events|] == events;
  }

  lemma CountsTheSame(rate: Rate, calls: seq<Call>, n: nat, key: string, from: real, to: real)
    requires n + 1 == |calls|
    ensures var (t, before) := Run(rate, calls[..n]);
      AdmittedIn(Run(rate, calls).1, key, from, to)
        == AdmittedIn(before, key, from, to) + (if Counted(Told(t, rate, calls[n]), key, from, to) then 1 else 0)
  {
    RunOneMore(rate, calls, n);
    AdmittedOfOneMore(Run(rate, calls[..n]).1, Told(Run(rate, calls[..n]).0, rate, calls[n]), key, from, to);
  }

  /** How often a private bucket asked at `times` admits inside the window. */
  function PrivateCount(rate: Rate, times: seq<real>, from: real, to: real): nat {
    if times == [] then 0 else
      var n := |times| - 1;
      PrivateCount(rate, times[..n], from, to)
        + (if PrivateAdmits(rate, times) && from <= times[n] <= to then 1 else 0)
  }

  lemma PrivateCountOfOneMore(rate: Rate, times: seq<real>, at: real, from: real, to: real)
    ensures PrivateCount(rate, times + [at], from, to)
         == PrivateCount(rate, times, from, to)
            + (if PrivateAdmits(rate, times + [at]) && from <= at <= to then 1 else 0)
  {
    assert (times + [at])[..|times|] == times;
  }

  /** A requestor is admitted in a window exactly as often as its private bucket admits there. */
  lemma {:induction false} AdmittedAsByAPrivateBucket(rate: Rate, calls: seq<Call>, key: string, from: real, to: real)
    requires rate.Valid() && Ordered(calls)
    ensures AdmittedIn(Run(rate, calls).1, key, from, to)
         == PrivateCount(rate, OwnTimes(Run(rate, calls).1, key), from, to)
  {
    if calls == [] {
    } else {
      var n := |calls| - 1;
      var c := calls[n];
      var (t, before) := Run(rate, calls[..n]);
      AdmittedAsByAPrivateBucket(rate, calls[..n], key, from, to);
      TableActsAsPrivateBuckets(rate, calls[..n], key, c.at);
      RunIsSettled(rate, calls[..n], c.at);
      StepMatchesPrivateBucket(t, rate, c, key, OwnTimes(before, key), c.at);
      CountsTheSame(rate, calls, n, key, from, to);
      RunOneMore(rate, calls, n);
      OwnTimesOfOneMore(before, Told(t, rate, c), key);
      PrivateCountOfOneMore(rate, OwnTimes(before, key), c.at, from, to);
    }
  }

  /** The use a private bucket already asked at `times` makes of one more attempt at `at`. */
  function PrivateUse(rate: Rate, times: seq<real>, at: real): T.Use {
    T.Use(at, PrivateAvailable(rate, times, at), if PrivateAdmits(rate, times + [at]) then 1.0 else 0.0)
  }

  /** The record of a private bucket asked at `times`. */
  function PrivateUses(rate: Rate, times: seq<real>): (uses: seq<T.Use>)
    ensures |uses| == |times|
  {
    if times == [] then [] else
      var n := |times| - 1;
      PrivateUses(rate, times[..n]) + [PrivateUse(rate, times[..n], times[n])]
  }

  predicate InOrder(times: seq<real>) {
    forall i, j :: 0 <= i < j < |times| ==> times[i] <= times[j]
  }

  /** One more use at `at` leaves the private bucket between empty and full. */
  lemma PrivateLeft(rate: Rate, times: seq<real>, at: real, now: real)
    requires rate.Valid() && at <= now
    requires 0.0 <= PrivateAvailable(rate, times, at) <= rate.capacity
    ensures var left := PrivateUse(rate, times, at).Left();
      && 0.0 <= left
      && 0.0 <= PrivateAvailable(rate, times + [at], now) <= rate.capacity
      && PrivateAvailable(rate, times + [at], now) <= left + (now - at) * rate.refillPerSec
  {
    PrivateStep(rate, times, at, now);
    RefillStaysInBucket(PrivateBucket(rate, times + [at]), rate, now);
  }

  /** Instants in order, none of them after `now`. */
  predicate Until(times: seq<real>, now: real) {
    InOrder(times) && forall i :: 0 <= i < |times| ==> times[i] <= now
  }

  lemma {:induction false} PrivateStaysInBucket(rate: Rate, times: seq<real>, now: real)
    requires rate.Valid() && Until(times, now)
    ensures 0.0 <= PrivateAvailable(rate, times, now) <= rate.capacity
  {
    if times == [] {
      assert Elapsed(now, now) * rate.refillPerSec == 0.0;
    } else {
      var n := |times| - 1;
      PrivateStaysInBucket(rate, times[..n], times[n]);
      PrivateLeft(rate, times[..n], times[n], now);
      assert times == times[..n] + [times[n]];
    }
  }

  lemma PrivateUseFollows(rate: Rate, prev: seq<real>, at: real, next: real)
    requires rate.Valid() && Until(prev, at) && at <= next
    ensures T.Follows(PrivateUse(rate, prev, at), PrivateUse(rate, prev + [at], next), rate.refillPerSec)
  {
    PrivateStaysInBucket(rate, prev, at);
    PrivateLeft(rate, prev, at, next);
  }

  lemma PrivateUseIsWithinBounds(rate: Rate, prev: seq<real>, at: real)
    requires rate.Valid() && Until(prev, at)
    ensures var u := PrivateUse(rate, prev, at);
      u.before <= rate.capacity && 0.0 <= u.spent && 0.0 <= u.Left()
  {
    PrivateStaysInBucket(rate, prev, at);
    PrivateLeft(rate, prev, at, at);
  }

  lemma {:induction false} PrivateUsesAreLawful(rate: Rate, times: seq<real>)
    requires rate.Valid() && InOrder(times)
    ensures T.Lawful(PrivateUses(rate, times), rate.capacity, rate.refillPerSec, 0.0)
  {
    if times == [] {
    } else {
      var n := |times| - 1;
      var uses := PrivateUses(rate, times[..n]);
      PrivateUsesAreLawful(rate, times[..n]);
      PrivateUseIsWithinBounds(rate, times[..n], times[n]);
      if n > 0 {
        assert times[..n][..n - 1] == times[..n - 1] && times[..n] == times[..n - 1] + [times[n - 1]];
        PrivateUseFollows(rate, times[..n - 1], times[n - 1], times[n]);
      }
      T.LawfulOneMore(uses, PrivateUse(rate, times[..n], times[n]), rate.capacity, rate.refillPerSec, 0.0);
    }
  }

  lemma {:induction false} PrivateCountIsSpending(rate: Rate, times: seq<real>, from: real, to: real)
    ensures PrivateCount(rate, times, from, to) as real == T.SpentIn(PrivateUses(rate, times), from, to)
  {
    if times == [] {
    } else {
      PrivateCountIsSpending(rate, times[..|times| - 1], from, to);
      assert times == times[..|times| - 1] + [times[|times| - 1]];
    }
  }

  lemma {:induction false} OwnTimesAreInOrder(rate: Rate, calls: seq<Call>, key: string)
    requires Ordered(calls)
    ensures var times := OwnTimes(Run(rate, calls).1, key);
      InOrder(times) && forall i :: 0 <= i < |times| ==> calls != [] && times[i] <= calls[|calls| - 1].at
  {
    if calls == [] {
    } else {
      var n := |calls| - 1;
      var (t, before) := Run(rate, calls[..n]);
      RunOneMore(rate, calls, n);
      OwnTimesOfOneMore(before, Told(t, rate, calls[n]), key);
      OwnTimesAreInOrder(rate, calls[..n], key);
      assert n > 0 ==> calls[n - 1].at <= calls[n].at;
    }
  }

  /** The bound the gate exists for: over any window of any run, whatever the other requestors do and
    * however often this one's bucket is dropped and remade, it is admitted at most its burst plus what
    * the window refills. */
  lemma AdmissionIsBoundedInEveryWindow(rate: Rate, calls: seq<Call>, key: string, from: real, to: real)
    requires rate.Valid() && Ordered(calls) && from <= to
    ensures AdmittedIn(Run(rate, calls).1, key, from, to) as real
         <= T.Ceiling(rate.capacity, rate.refillPerSec, 0.0, from, to)
  {
    AdmittedAsByAPrivateBucket(rate, calls, key, from, to);
    OwnTimesAreInOrder(rate, calls, key);
    PrivateBound(rate, OwnTimes(Run(rate, calls).1, key), from, to);
  }

  lemma PrivateBound(rate: Rate, times: seq<real>, from: real, to: real)
    requires rate.Valid() && InOrder(times) && from <= to
    ensures PrivateCount(rate, times, from, to) as real <= T.Ceiling(rate.capacity, rate.refillPerSec, 0.0, from, to)
  {
    PrivateUsesAreLawful(rate, times);
    PrivateCountIsSpending(rate, times, from, to);
    T.WindowLaw(PrivateUses(rate, times), rate.capacity, rate.refillPerSec, 0.0, from, to);
  }

  // ---------------------------------------------------------------------------------------------
  // That a bucket refills
  // ---------------------------------------------------------------------------------------------

  /** What a bucket with so many tokens has after so long: what the time pours in on top, up to the capacity. */
  function Topped(rate: Rate, tokens: real, time: real): real {
    if tokens + time * rate.refillPerSec <= rate.capacity then tokens + time * rate.refillPerSec else rate.capacity
  }

  /** One bucket, in its own arithmetic: next asked after some time it admits exactly when what it then has makes a
    * whole token, and keeps the rest; and it is full, and so may be dropped, exactly when that makes a bucketful. */
  lemma ABucketRefills(b: BucketState, rate: Rate, now: real)
    requires b.lastRefill <= now
    ensures var has := Topped(rate, b.tokens, now - b.lastRefill);
      && (Acquired(b, rate, now).1 <==> has >= 1.0)
      && Acquired(b, rate, now).0 == BucketState(if has >= 1.0 then has - 1.0 else has, now)
      && (Full(b, rate, now) <==> has == rate.capacity)
  {
  }

  /** The last call of `key` before step `j`, if it made one, was at step `i` and was answered by its bucket. */
  ghost predicate LastAnswered(events: seq<Event>, key: string, i: nat, j: nat)
    requires i < j <= |events|
  {
    && events[i].key == key && events[i].outcome != TableSaturated
    && forall m :: i < m < j && events[m].key == key ==> events[m].outcome == TableSaturated
  }

  lemma {:induction false} TimesSoFar(rate: Rate, calls: seq<Call>, j: nat)
    requires Ordered(calls) && j < |calls|
    ensures Ordered(calls[..j]) && forall c :: c in calls[..j] ==> c.at <= calls[j].at
  {
  }

  /** Calls that spend nothing of `key` leave it what it has. */
  lemma {:induction false} OthersLeaveIt(rate: Rate, calls: seq<Call>, key: string, from: nat, to: nat, now: real)
    requires rate.Valid() && Ordered(calls) && from <= to <= |calls|
    requires forall m :: 0 <= m < to ==> calls[m].at <= now
    requires forall m :: from <= m < to && calls[m].key == key ==> Run(rate, calls).1[m].outcome == TableSaturated
    ensures Available(Run(rate, calls[..to]).0, rate, key, now) == Available(Run(rate, calls[..from]).0, rate, key, now)
  {
    if from == to {
    } else {
      var last := to - 1;
      OthersLeaveIt(rate, calls, key, from, last, now);
      EventOfARun(rate, calls, last);
      TimesSoFar(rate, calls, last);
      RunIsSettled(rate, calls[..last], calls[last].at);
      assert calls[..to][..last] == calls[..last];
      RunOneMore(rate, calls[..to], last);
      StepOnAvailable(Run(rate, calls[..last]).0, rate, calls[last].key, calls[last].at, key, now);
    }
  }

  /** The record names each caller as it called. */
  lemma EventsAreOfTheirCalls(rate: Rate, calls: seq<Call>)
    ensures var events := Run(rate, calls).1;
      forall m :: 0 <= m < |calls| ==> events[m].key == calls[m].key && events[m].at == calls[m].at
  {
    forall m | 0 <= m < |calls|
      ensures Run(rate, calls).1[m].key == calls[m].key && Run(rate, calls).1[m].at == calls[m].at
    {
      EventOfARun(rate, calls, m);
    }
  }

  /** What the table holds for `key` right after its bucket answered it. */
  lemma {:induction false} AfterItsAnswer(rate: Rate, calls: seq<Call>, key: string, i: nat)
    requires rate.Valid() && Ordered(calls) && i < |calls| && calls[i].key == key
    requires Run(rate, calls).1[i].outcome != TableSaturated
    ensures var has := Available(Run(rate, calls[..i]).0, rate, key, calls[i].at);
      var after := Run(rate, calls[..i + 1]).0;
      && (Run(rate, calls).1[i].outcome == Admitted <==> has >= 1.0)
      && key in after && after[key] == BucketState(if has >= 1.0 then has - 1.0 else has, calls[i].at)
      && 0.0 <= after[key].tokens
  {
    EventOfARun(rate, calls, i);
    TimesSoFar(rate, calls, i);
    RunIsSettled(rate, calls[..i], calls[i].at);
    assert calls[..i + 1][..i] == calls[..i];
    RunOneMore(rate, calls[..i + 1], i);
    StepOnAvailable(Run(rate, calls[..i]).0, rate, key, calls[i].at, key, calls[i].at);
    AvailableIsNonNegative(Run(rate, calls[..i]).0, rate, key, calls[i].at);
  }

  lemma AvailableIsTopped(t: Table, rate: Rate, key: string, at: real, now: real, time: real) returns (tokens: real)
    requires key in t && t[key].lastRefill == at <= now && time == now - at
    ensures t[key].tokens == tokens && Available(t, rate, key, now) == Topped(rate, tokens, time)
  {
    tokens := t[key].tokens;
  }

  /** Until its next answer, a requestor has the tokens its bucket was left with and what the time since has poured in,
    * up to the capacity, whatever the others do and however often the bucket is dropped and remade. */
  lemma {:induction false} TokensCarryOver(rate: Rate, calls: seq<Call>, key: string, i: nat, j: nat, now: real,
                                           time: real) returns (tokens: real)
    requires rate.Valid() && Ordered(calls) && i < j <= |calls| && calls[i].key == key && time == now - calls[i].at
    requires LastAnswered(Run(rate, calls).1, key, i, j) && forall m :: 0 <= m < j ==> calls[m].at <= now
    ensures var left := Run(rate, calls[..i + 1]).0; key in left && left[key].tokens == tokens >= 0.0
    ensures Available(Run(rate, calls[..j]).0, rate, key, now) == Topped(rate, tokens, time)
  {
    tokens := JustAnswered(rate, calls, key, i, now, time);
    LeftAlone(rate, calls, key, i, j);
    OthersLeaveIt(rate, calls, key, i + 1, j, now);
  }

  lemma {:induction false} JustAnswered(rate: Rate, calls: seq<Call>, key: string, i: nat, now: real, time: real)
    returns (tokens: real)
    requires rate.Valid() && Ordered(calls) && i < |calls| && calls[i].key == key
    requires calls[i].at <= now && time == now - calls[i].at
    requires Run(rate, calls).1[i].outcome != TableSaturated
    ensures var left := Run(rate, calls[..i + 1]).0;
      && key in left && left[key].tokens == tokens >= 0.0
      && Available(left, rate, key, now) == Topped(rate, tokens, time)
  {
    AfterItsAnswer(rate, calls, key, i);
    tokens := AvailableIsTopped(Run(rate, calls[..i + 1]).0, rate, key, calls[i].at, now, time);
  }

  lemma {:induction false} LeftAlone(rate: Rate, calls: seq<Call>, key: string, i: nat, j: nat)
    requires i < j <= |calls| && LastAnswered(Run(rate, calls).1, key, i, j)
    ensures forall m :: i + 1 <= m < j && calls[m].key == key ==> Run(rate, calls).1[m].outcome == TableSaturated
  {
    EventsAreOfTheirCalls(rate, calls);
  }

  /** So over any run: a requestor's next answer is decided by the tokens its bucket was left with at its last one and
    * what the time in between has poured in, up to the capacity. It is admitted exactly when that makes a whole
    * token, and its bucket is left with the rest. */
  lemma {:induction false} TheNextAnswerIsTheLastOneRefilled(rate: Rate, calls: seq<Call>, key: string, i: nat, j: nat,
                                                             time: real) returns (tokens: real, has: real)
    requires rate.Valid() && Ordered(calls) && i < j < |calls| && calls[i].key == key == calls[j].key
    requires time == calls[j].at - calls[i].at
    requires LastAnswered(Run(rate, calls).1, key, i, j) && Run(rate, calls).1[j].outcome != TableSaturated
    ensures var left := Run(rate, calls[..i + 1]).0; key in left && left[key].tokens == tokens >= 0.0
    ensures has == Topped(rate, tokens, time)
    ensures Run(rate, calls).1[j].outcome == Admitted <==> has >= 1.0
    ensures var after := Run(rate, calls[..j + 1]).0;
      key in after && after[key] == BucketState(if has >= 1.0 then has - 1.0 else has, calls[j].at)
  {
    AfterItsAnswer(rate, calls, key, j);
    has := Available(Run(rate, calls[..j]).0, rate, key, calls[j].at);
    tokens := TokensCarryOver(rate, calls, key, i, j, calls[j].at, time);
  }

  lemma {:induction false} LastAnswerOf(events: seq<Event>, key: string, j: nat) returns (last: C.Option<nat>)
    requires j <= |events|
    ensures last.Some? ==> last.value < j && LastAnswered(events, key, last.value, j)
    ensures last.None? ==> forall m :: 0 <= m < j && events[m].key == key ==> events[m].outcome == TableSaturated
  {
    if j == 0 {
      last := C.None;
    } else if events[j - 1].key == key && events[j - 1].outcome != TableSaturated {
      last := C.Some(j - 1);
    } else {
      last := LastAnswerOf(events, key, j - 1);
    }
  }

  /** A requestor whose bucket never answered it yet has a full one coming. */
  lemma {:induction false} NeverAnsweredIsFull(rate: Rate, calls: seq<Call>, key: string, j: nat, now: real)
    requires rate.Valid() && Ordered(calls) && j <= |calls| && forall m :: 0 <= m < j ==> calls[m].at <= now
    requires var events := Run(rate, calls).1;
      forall m :: 0 <= m < j && events[m].key == key ==> events[m].outcome == TableSaturated
    ensures Available(Run(rate, calls[..j]).0, rate, key, now) == rate.capacity
  {
    EventsAreOfTheirCalls(rate, calls);
    OthersLeaveIt(rate, calls, key, 0, j, now);
  }

  lemma PaceIsEnough(rate: Rate, tokens: real, time: real)
    requires rate.capacity >= 1.0 && rate.refillPerSec > 0.0 && tokens >= 0.0 && time >= 1.0 / rate.refillPerSec
    ensures Topped(rate, tokens, time) >= 1.0
  {
    assert 1.0 / rate.refillPerSec * rate.refillPerSec == 1.0;
    T.ProductNonNegative(time - 1.0 / rate.refillPerSec, rate.refillPerSec);
  }

  lemma IdlingFills(rate: Rate, tokens: real, time: real)
    requires rate.refillPerSec > 0.0 && tokens >= 0.0 && time >= rate.capacity / rate.refillPerSec
    ensures Topped(rate, tokens, time) == rate.capacity
  {
    var full := rate.capacity / rate.refillPerSec;
    assert full * rate.refillPerSec == rate.capacity;
    var poured := time * rate.refillPerSec;
    T.ProductNonNegative(time - full, rate.refillPerSec);
    assert (time - full) * rate.refillPerSec == poured - full * rate.refillPerSec;
    assert poured >= rate.capacity;
    assert tokens + time * rate.refillPerSec >= rate.capacity;
  }

  /** The calls of `key` come at the pace its bucket refills at, or slower. */
  predicate KeepsPace(calls: seq<Call>, key: string, rate: Rate)
    requires rate.refillPerSec > 0.0
  {
    forall i, j :: 0 <= i < j < |calls| && calls[i].key == key == calls[j].key ==>
      calls[j].at - calls[i].at >= 1.0 / rate.refillPerSec
  }

  /** The other side of the bound: a requestor that keeps to the rate is never refused for want of a token, over any
    * run, whatever the others do. Only a table with no room can turn it away. */
  lemma {:induction false} KeepingPaceIsNeverRefused(rate: Rate, calls: seq<Call>, key: string, j: nat)
    requires rate.capacity >= 1.0 && rate.refillPerSec > 0.0 && Ordered(calls) && KeepsPace(calls, key, rate)
    requires j < |calls| && calls[j].key == key
    ensures Run(rate, calls).1[j].outcome != Exhausted
  {
    var events := Run(rate, calls).1;
    if events[j].outcome != TableSaturated {
      var last := LastAnswerOf(events, key, j);
      if last.Some? {
        var i := last.value;
        assert calls[i].key == key by { EventsAreOfTheirCalls(rate, calls); }
        var time := calls[j].at - calls[i].at;
        var tokens, has := TheNextAnswerIsTheLastOneRefilled(rate, calls, key, i, j, time);
        PaceIsEnough(rate, tokens, time);
      } else {
        NeverAnsweredIsFull(rate, calls, key, j, calls[j].at);
        AfterItsAnswer(rate, calls, key, j);
      }
    }
  }

  /** `key` was answered by its bucket less than the time a bucket takes to fill before step `j`. */
  ghost predicate InRecentUse(rate: Rate, calls: seq<Call>, key: string, j: nat)
    requires rate.refillPerSec > 0.0 && j < |calls|
  {
    exists i :: 0 <= i < j && calls[i].key == key && Run(rate, calls).1[i].outcome != TableSaturated
      && calls[j].at - calls[i].at < rate.capacity / rate.refillPerSec
  }

  /** A bucket below its capacity was used recently: one idle for as long as it takes to fill is full, and so makes room
    * for a newcomer. */
  lemma {:induction false} BelowCapacityIsInRecentUse(rate: Rate, calls: seq<Call>, key: string, j: nat)
    requires rate.Valid() && rate.refillPerSec > 0.0 && Ordered(calls) && j < |calls|
    requires Available(Run(rate, calls[..j]).0, rate, key, calls[j].at) < rate.capacity
    ensures InRecentUse(rate, calls, key, j)
  {
    var last := LastAnswerOf(Run(rate, calls).1, key, j);
    if last.None? {
      NeverAnsweredIsFull(rate, calls, key, j, calls[j].at);
      assert false;
    } else {
      var i := last.value;
      assert calls[i].key == key by { EventsAreOfTheirCalls(rate, calls); }
      var time := calls[j].at - calls[i].at;
      var tokens := TokensCarryOver(rate, calls, key, i, j, calls[j].at, time);
      if time >= rate.capacity / rate.refillPerSec { IdlingFills(rate, tokens, time); }
    }
  }

  /** So the table stays saturated only while it is in use: a check is turned away for want of room only if as many
    * other requestors as the table tracks were each answered within the time a bucket takes to fill. */
  lemma {:induction false} SaturationTakesACrowd(rate: Rate, calls: seq<Call>, j: nat) returns (crowd: set<string>)
    requires rate.Valid() && rate.refillPerSec > 0.0 && Ordered(calls) && j < |calls|
    requires Run(rate, calls).1[j].outcome == TableSaturated
    ensures |crowd| == MAX_TRACKED_REQUESTORS && calls[j].key !in crowd
    ensures forall k :: k in crowd ==> InRecentUse(rate, calls, k, j)
  {
    var t := Run(rate, calls[..j]).0;
    EachCheckIsAPrivateDecision(rate, calls, j);
    crowd := t.Keys;
    assert |t| == |t.Keys|;
    forall k | k in crowd ensures InRecentUse(rate, calls, k, j) {
      assert !Full(t[k], rate, calls[j].at);
      BelowCapacityIsInRecentUse(rate, calls, k, j);
    }
  }
}
