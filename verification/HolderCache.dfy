/** The bounded, expiring map behind both of a node's remembered populations: who first-hand holds what, and
  * which asks it has already walked. */
module HolderCache {
  import opened Common
  import opened ProviderRecords

  // ---------------------------------------------------------------------------------------------
  // The map
  // ---------------------------------------------------------------------------------------------

  datatype Entry<V> = Entry(storedAt: nat, value: V)

  predicate IsFresh(storedAt: nat, now: nat, ttl: nat) { SaturatingSub(now, storedAt) < ttl }

  /** What a lookup answers, and the entries it leaves. */
  function Answer<K, V>(entries: map<K, Entry<V>>, key: K, now: nat, ttl: nat): Option<V> {
    if key in entries && IsFresh(entries[key].storedAt, now, ttl) then Some(entries[key].value) else None
  }

  function AfterGet<K, V>(entries: map<K, Entry<V>>, key: K, now: nat, ttl: nat): map<K, Entry<V>> {
    if key in entries && !IsFresh(entries[key].storedAt, now, ttl) then entries - {key} else entries
  }

  function Live<K, V>(entries: map<K, Entry<V>>, now: nat, ttl: nat): map<K, Entry<V>> {
    map k | k in entries && IsFresh(entries[k].storedAt, now, ttl) :: entries[k]
  }

  /** `kept` is `live` cut to less than the capacity by dropping only entries no newer than any it keeps.
    * Among equally old entries the choice is the hash map's. */
  ghost predicate Evicts<K(!new), V(!new)>(live: map<K, Entry<V>>, kept: map<K, Entry<V>>, capacity: nat) {
    && kept.Keys <= live.Keys && (forall k :: k in kept ==> kept[k] == live[k])
    && (forall e, k :: e in live && e !in kept && k in kept ==> live[e].storedAt <= live[k].storedAt)
    && |kept| == Min(|live|, SaturatingSub(capacity, 1))
  }

  /** Storing a value: a key already live is overwritten in place, any other first makes room. */
  ghost predicate Stores<K(!new), V(!new)>(before: map<K, Entry<V>>, after: map<K, Entry<V>>, key: K, value: V,
                                           now: nat, ttl: nat, capacity: nat)
  {
    var live := Live(before, now, ttl);
    if key in live then after == live[key := Entry(now, value)]
    else exists kept :: Evicts(live, kept, capacity) && after == kept[key := Entry(now, value)]
  }

  class TtlMap<K(==, !new), V(!new)> {
    var entries: map<K, Entry<V>>
    const ttl: nat
    const capacity: nat

    constructor (ttl: nat, capacity: nat)
      ensures this.ttl == ttl && this.capacity == capacity && entries == map[]
    {
      this.ttl, this.capacity, entries := ttl, capacity, map[];
    }

    method Get(key: K, now: nat) returns (r: Option<V>)
      modifies this
      ensures r == Answer(old(entries), key, now, ttl)
      ensures entries == AfterGet(old(entries), key, now, ttl)
    {
      if key !in entries { return None; }
      var stored := entries[key];
      if SaturatingSub(now, stored.storedAt) >= ttl {
        entries := entries - {key};
        return None;
      }
      r := Some(stored.value);
    }

    /** The entry stored longest ago. */
    method Oldest() returns (oldest: K)
      requires entries != map[]
      ensures oldest in entries && forall k :: k in entries ==> entries[oldest].storedAt <= entries[k].storedAt
    {
      oldest :| oldest in entries;
      var rest := entries.Keys - {oldest};
      while rest != {}
        invariant oldest in entries && rest <= entries.Keys
        invariant forall k :: k in entries && k !in rest ==> entries[oldest].storedAt <= entries[k].storedAt
        decreases rest
      {
        var k :| k in rest;
        if entries[k].storedAt < entries[oldest].storedAt { oldest := k; }
        rest := rest - {k};
      }
    }

    method MakeRoom(key: K)
      modifies this
      ensures key in old(entries) ==> entries == old(entries)
      ensures key !in old(entries) ==> Evicts(old(entries), entries, capacity)
    {
      while |entries| >= capacity && key !in entries
        invariant entries.Keys <= old(entries).Keys && forall k :: k in entries ==> entries[k] == old(entries)[k]
        invariant key in old(entries) ==> entries == old(entries)
        invariant forall e, k :: e in old(entries) && e !in entries && k in entries ==>
                    old(entries)[e].storedAt <= entries[k].storedAt
        invariant entries == old(entries) || |entries| >= SaturatingSub(capacity, 1)
        decreases |entries|
      {
        if entries == map[] { break; }
        var oldest := Oldest();
        Without(entries, oldest);
        entries := entries - {oldest};
      }
      if key !in old(entries) { SubmapSize(entries, old(entries)); }
    }

    method Insert(key: K, value: V, now: nat)
      modifies this
      ensures Stores(old(entries), entries, key, value, now, ttl, capacity)
    {
      entries := map k | k in entries && SaturatingSub(now, entries[k].storedAt) < ttl :: entries[k];
      assert entries == Live(old(entries), now, ttl);
      MakeRoom(key);
      entries := entries[key := Entry(now, value)];
    }

    method Remove(key: K)
      modifies this
      ensures entries == old(entries) - {key}
    {
      entries := entries - {key};
    }
  }

  lemma Without<K, V>(m: map<K, V>, key: K)
    requires key in m
    ensures |m - {key}| == |m| - 1
  {
    assert (m - {key}).Keys == m.Keys - {key};
    assert |m.Keys - {key}| == |m.Keys| - 1;
  }

  lemma SubmapSize<K, V>(a: map<K, V>, b: map<K, V>)
    requires a.Keys <= b.Keys
    ensures |a| <= |b|
  {
    SubsetSize(a.Keys, b.Keys);
    assert |a| == |a.Keys| && |b| == |b.Keys|;
  }

  // ---------------------------------------------------------------------------------------------
  // The asks already walked
  // ---------------------------------------------------------------------------------------------

  type AskId = nat
  type ContentId = nat
  type Question = (AskId, ContentId)

  const MAX_FORWARDED_ASK_BUDGET: nat := 65 * NANOS_PER_SEC
  const NANOS_PER_SEC: nat := 1_000_000_000
  const ASK_SEEN_CAPACITY: nat := 8192

  class AskSeenSet {
    const seen: TtlMap<Question, ()>

    constructor ()
      ensures fresh(seen) && seen.entries == map[]
      ensures seen.ttl == MAX_FORWARDED_ASK_BUDGET && seen.capacity == ASK_SEEN_CAPACITY
    {
      seen := new TtlMap(MAX_FORWARDED_ASK_BUDGET, ASK_SEEN_CAPACITY);
    }

    method ClaimAt(id: AskId, content: ContentId, now: nat) returns (granted: bool)
      modifies seen
      ensures ClaimStep(old(seen.entries), Claim((id, content), now, granted), seen.entries, seen.ttl, seen.capacity)
    {
      var key := (id, content);
      var known := seen.Get(key, now);
      if known.Some? { return false; }
      seen.Insert(key, (), now);
      granted := true;
    }
  }

  /** One claim, and whether it was granted. */
  datatype Claim = Claim(question: Question, now: nat, granted: bool)

  type Seen = map<Question, Entry<()>>

  ghost predicate ClaimStep(before: Seen, claim: Claim, after: Seen, ttl: nat, capacity: nat) {
    && claim.granted == Answer(before, claim.question, claim.now, ttl).None?
    && (!claim.granted ==> after == before)
    && (claim.granted ==>
          Stores(AfterGet(before, claim.question, claim.now, ttl), after, claim.question, (), claim.now, ttl, capacity))
  }

  /** A whole run of claims from a fresh start, on a clock that never goes back. */
  ghost predicate IsRun(run: seq<Claim>, states: seq<Seen>, ttl: nat, capacity: nat) {
    && |states| == |run| + 1 && states[0] == map[]
    && (forall i, j :: 0 <= i <= j < |run| ==> run[i].now <= run[j].now)
    && (forall i :: 0 <= i < |run| ==> StepAt(run, states, ttl, capacity, i))
  }

  ghost predicate StepAt(run: seq<Claim>, states: seq<Seen>, ttl: nat, capacity: nat, i: nat)
    requires i < |run| && |states| == |run| + 1
  {
    ClaimStep(states[i], run[i], states[i + 1], ttl, capacity)
  }

  /** How many of the first `k` claims were granted at or after (strictly after) an instant. */
  function GrantedSince(run: seq<Claim>, k: nat, t: nat): nat
    requires k <= |run|
  {
    if k == 0 then 0 else GrantedSince(run, k - 1, t) + (if run[k - 1].granted && run[k - 1].now >= t then 1 else 0)
  }

  function GrantedAfter(run: seq<Claim>, k: nat, t: nat): nat
    requires k <= |run|
  {
    if k == 0 then 0 else GrantedAfter(run, k - 1, t) + (if run[k - 1].granted && run[k - 1].now > t then 1 else 0)
  }

  /** The questions stored at or after (strictly after) an instant. */
  ghost function Since(m: Seen, t: nat): set<Question> { set q | q in m && m[q].storedAt >= t }

  ghost function After(m: Seen, t: nat): set<Question> { set q | q in m && m[q].storedAt > t }

  /** A granted claim in one shape: what it keeps of the questions before, plus itself. */
  lemma GrantedShape(before: Seen, claim: Claim, after: Seen, ttl: nat, capacity: nat) returns (kept: Seen)
    requires ClaimStep(before, claim, after, ttl, capacity) && claim.granted
    ensures claim.question !in Live(before, claim.now, ttl)
    ensures Evicts(Live(before, claim.now, ttl), kept, capacity)
      && after == kept[claim.question := Entry(claim.now, ())]
  {
    var purged := AfterGet(before, claim.question, claim.now, ttl);
    assert Live(purged, claim.now, ttl) == Live(before, claim.now, ttl);
    kept :| Evicts(Live(purged, claim.now, ttl), kept, capacity)
      && after == kept[claim.question := Entry(claim.now, ())];
  }

  /** The set never outgrows its bound, whatever strangers ask. */
  lemma {:induction false} SeenSetIsBounded(run: seq<Claim>, states: seq<Seen>, ttl: nat, capacity: nat, k: nat)
    requires IsRun(run, states, ttl, capacity) && k <= |run| && capacity > 0
    ensures |states[k]| <= capacity
  {
    if k == 0 {
    } else {
      SeenSetIsBounded(run, states, ttl, capacity, k - 1);
      assert StepAt(run, states, ttl, capacity, k - 1);
      if run[k - 1].granted {
        var kept := GrantedShape(states[k - 1], run[k - 1], states[k], ttl, capacity);
        GrowsByOne(kept, run[k - 1].question, Entry(run[k - 1].now, ()));
      }
    }
  }

  lemma GrowsByOne<K, V>(m: map<K, V>, key: K, value: V)
    ensures |m[key := value]| <= |m| + 1
  {
    assert m[key := value].Keys == m.Keys + {key};
    SubsetSize(m.Keys, m.Keys + {key});
    assert |m.Keys + {key}| <= |m.Keys| + 1;
    assert |m| == |m.Keys| && |m[key := value]| == |m[key := value].Keys|;
  }

  /** Every question still stored since an instant was granted since that instant. */
  lemma {:induction false} StoredWereGranted(run: seq<Claim>, states: seq<Seen>, ttl: nat, capacity: nat, k: nat,
                                             t: nat)
    requires IsRun(run, states, ttl, capacity) && k <= |run|
    ensures |Since(states[k], t)| <= GrantedSince(run, k, t)
  {
    if k == 0 {
      assert Since(states[0], t) == {};
    } else {
      StoredWereGranted(run, states, ttl, capacity, k - 1, t);
      assert StepAt(run, states, ttl, capacity, k - 1);
      SinceGrowsByOne(states[k - 1], run[k - 1], states[k], ttl, capacity, t);
    }
  }

  lemma SinceGrowsByOne(before: Seen, claim: Claim, after: Seen, ttl: nat, capacity: nat, t: nat)
    requires ClaimStep(before, claim, after, ttl, capacity)
    ensures |Since(after, t)| <= |Since(before, t)| + (if claim.granted && claim.now >= t then 1 else 0)
  {
    if !claim.granted { return; }
    var kept := GrantedShape(before, claim, after, ttl, capacity);
    var mine := if claim.now >= t then {claim.question} else {};
    forall q | q in Since(after, t) ensures q in Since(before, t) + mine {
      if q != claim.question { assert q in kept && kept[q] == before[q]; }
    }
    SubsetSize(Since(after, t), Since(before, t) + mine);
  }

  /** A granted question is remembered, unless its lifetime ran out or the set was filled over it. */
  ghost predicate Remembered(run: seq<Claim>, states: seq<Seen>, ttl: nat, capacity: nat, i: nat, k: nat)
    requires i < k <= |run| && |states| == |run| + 1
  {
    || (run[i].question in states[k] && states[k][run[i].question].storedAt >= run[i].now)
    || run[k - 1].now - run[i].now >= ttl
    || GrantedSince(run, k, run[i].now) >= capacity + 1
  }

  lemma {:induction false} GrantsAreRemembered(run: seq<Claim>, states: seq<Seen>, ttl: nat, capacity: nat, i: nat,
                                               k: nat)
    requires IsRun(run, states, ttl, capacity) && i < k <= |run| && run[i].granted
    ensures Remembered(run, states, ttl, capacity, i, k)
    decreases k
  {
    if k == i + 1 {
      assert StepAt(run, states, ttl, capacity, i);
      var kept := GrantedShape(states[i], run[i], states[k], ttl, capacity);
    } else {
      GrantsAreRemembered(run, states, ttl, capacity, i, k - 1);
      assert StepAt(run, states, ttl, capacity, k - 1);
      assert run[k - 2].now <= run[k - 1].now && run[i].now <= run[k - 1].now;
      if run[k - 1].granted && run[k - 1].question != run[i].question { OtherGrant(run, states, ttl, capacity, i, k); }
    }
  }

  lemma OtherGrant(run: seq<Claim>, states: seq<Seen>, ttl: nat, capacity: nat, i: nat, k: nat)
    requires IsRun(run, states, ttl, capacity) && i + 1 < k <= |run| && run[i].granted
    requires run[k - 1].granted && run[k - 1].question != run[i].question && run[i].now <= run[k - 1].now
    requires Remembered(run, states, ttl, capacity, i, k - 1)
    ensures Remembered(run, states, ttl, capacity, i, k)
  {
    var q, t, now := run[i].question, run[i].now, run[k - 1].now;
    assert StepAt(run, states, ttl, capacity, k - 1);
    assert run[k - 2].now <= now;
    if q in states[k - 1] && states[k - 1][q].storedAt >= t && now - t < ttl {
      ForgettingTakesAFullSet(states[k - 1], run[k - 1], states[k], ttl, capacity, q, t);
      StoredWereGranted(run, states, ttl, capacity, k - 1, t);
    }
  }

  /** A question still inside its lifetime is pushed out only by a capacity of others no older than it. */
  lemma ForgettingTakesAFullSet(before: Seen, claim: Claim, after: Seen, ttl: nat, capacity: nat, q: Question, t: nat)
    requires ClaimStep(before, claim, after, ttl, capacity) && claim.granted && claim.question != q
    requires q in before && before[q].storedAt >= t && t <= claim.now && claim.now - t < ttl
    ensures (q in after && after[q] == before[q]) || |Since(before, t)| >= capacity
  {
    var kept := GrantedShape(before, claim, after, ttl, capacity);
    var live := Live(before, claim.now, ttl);
    assert q in live;
    if q !in kept {
      SubsetSize(kept.Keys + {q}, live.Keys);
      assert |kept| == |kept.Keys| && |live| == |live.Keys| && |kept.Keys + {q}| == |kept.Keys| + 1;
      SubsetSize(kept.Keys + {q}, Since(before, t));
    }
  }

  /** At most once: a question is granted a second time only when its lifetime - the largest budget any hop
    * may hold - ran out in between, or when at least a whole capacity of other asks was granted since. */
  lemma WalkedTwiceOnlyWhenForgotten(run: seq<Claim>, states: seq<Seen>, ttl: nat, capacity: nat, i: nat, j: nat)
    requires IsRun(run, states, ttl, capacity) && i < j < |run|
    requires run[i].granted && run[j].granted && run[i].question == run[j].question
    ensures run[j].now - run[i].now >= ttl || GrantedSince(run, j, run[i].now) >= capacity + 1
  {
    GrantsAreRemembered(run, states, ttl, capacity, i, j);
    assert StepAt(run, states, ttl, capacity, j);
    assert run[j - 1].now <= run[j].now;
  }

  /** A refusal always has its reason: the same question, granted here within its lifetime. */
  lemma {:induction false} StoredHasAGrant(run: seq<Claim>, states: seq<Seen>, ttl: nat, capacity: nat, k: nat,
                                           q: Question)
    requires IsRun(run, states, ttl, capacity) && k <= |run| && q in states[k]
    ensures exists i :: 0 <= i < k && run[i].granted && run[i].question == q && run[i].now == states[k][q].storedAt
  {
    if k == 0 {
    } else {
      assert StepAt(run, states, ttl, capacity, k - 1);
      if run[k - 1].granted {
        var kept := GrantedShape(states[k - 1], run[k - 1], states[k], ttl, capacity);
        if q != run[k - 1].question {
          assert q in kept && q in states[k - 1] && kept[q] == states[k - 1][q];
          StoredHasAGrant(run, states, ttl, capacity, k - 1, q);
        }
      } else {
        StoredHasAGrant(run, states, ttl, capacity, k - 1, q);
      }
    }
  }

  lemma RefusedOnlyAsADuplicate(run: seq<Claim>, states: seq<Seen>, ttl: nat, capacity: nat, j: nat)
    requires IsRun(run, states, ttl, capacity) && j < |run| && !run[j].granted
    ensures exists i ::
      0 <= i < j && run[i].granted && run[i].question == run[j].question && run[j].now - run[i].now < ttl
  {
    assert StepAt(run, states, ttl, capacity, j);
    StoredHasAGrant(run, states, ttl, capacity, j, run[j].question);
  }

  /** No grant of this question strictly between the two places. */
  ghost predicate NotRegranted(run: seq<Claim>, i: nat, k: nat)
    requires i < |run|
  {
    forall x :: i < x < k && x < |run| ==> !(run[x].granted && run[x].question == run[i].question)
  }

  lemma {:induction false} StoredTimeStays(run: seq<Claim>, states: seq<Seen>, ttl: nat, capacity: nat, i: nat, k: nat)
    requires IsRun(run, states, ttl, capacity) && i < k <= |run| && run[i].granted && NotRegranted(run, i, k)
    requires run[i].question in states[k]
    ensures states[k][run[i].question].storedAt == run[i].now
    ensures k > i + 1 ==> run[i].question in states[k - 1]
    decreases k
  {
    assert StepAt(run, states, ttl, capacity, k - 1);
    if run[k - 1].granted { var kept := GrantedShape(states[k - 1], run[k - 1], states[k], ttl, capacity); }
    if k == i + 1 {
    } else {
      StoredTimeStays(run, states, ttl, capacity, i, k - 1);
    }
  }

  lemma {:induction false} NoneBefore(run: seq<Claim>, k: nat, t: nat)
    requires k <= |run| && forall x :: 0 <= x < k ==> run[x].now <= t
    ensures GrantedAfter(run, k, t) == 0
  {
    if k == 0 {
    } else {
      NoneBefore(run, k - 1, t);
    }
  }

  lemma {:induction false} NoneStoredAfter(run: seq<Claim>, states: seq<Seen>, ttl: nat, capacity: nat, k: nat, t: nat)
    requires IsRun(run, states, ttl, capacity) && k <= |run| && forall x :: 0 <= x < k ==> run[x].now <= t
    ensures After(states[k], t) == {}
  {
    forall q | q in states[k] ensures states[k][q].storedAt <= t { StoredHasAGrant(run, states, ttl, capacity, k, q); }
  }

  /** While a question is still stored, everything granted after it is stored too. */
  lemma {:induction false} NewerAreStored(run: seq<Claim>, states: seq<Seen>, ttl: nat, capacity: nat, i: nat, k: nat)
    requires IsRun(run, states, ttl, capacity) && i < k <= |run| && run[i].granted && NotRegranted(run, i, k)
    requires run[i].question in states[k]
    ensures |After(states[k], run[i].now)| == GrantedAfter(run, k, run[i].now)
    decreases k
  {
    var t := run[i].now;
    if k == i + 1 {
      NoneBefore(run, k, t);
      NoneStoredAfter(run, states, ttl, capacity, k, t);
    } else {
      StoredTimeStays(run, states, ttl, capacity, i, k);
      NewerAreStored(run, states, ttl, capacity, i, k - 1);
      StoredTimeStays(run, states, ttl, capacity, i, k - 1);
      assert StepAt(run, states, ttl, capacity, k - 1);
      assert t <= run[k - 1].now;
      if run[k - 1].granted { OneMoreNewer(states[k - 1], run[k - 1], states[k], ttl, capacity, run[i].question, t); }
    }
  }

  lemma OneMoreNewer(before: Seen, claim: Claim, after: Seen, ttl: nat, capacity: nat, q: Question, t: nat)
    requires ClaimStep(before, claim, after, ttl, capacity) && claim.granted && claim.question != q && t <= claim.now
    requires q in before && q in after && before[q].storedAt == t
    ensures |After(after, t)| == |After(before, t)| + (if claim.now > t then 1 else 0)
  {
    var kept := GrantedShape(before, claim, after, ttl, capacity);
    NewerAreKept(before, claim, kept, ttl, capacity, q, t);
    assert claim.question !in After(before, t);
    StoredIsNewer(kept, after, claim.question, claim.now, t);
  }

  lemma StoredIsNewer(kept: Seen, after: Seen, question: Question, now: nat, t: nat)
    requires after == kept[question := Entry(now, ())] && question !in After(kept, t)
    ensures |After(after, t)| == |After(kept, t)| + (if now > t then 1 else 0)
  {
    if now > t {
      assert After(after, t) == After(kept, t) + {question};
    } else {
      assert After(after, t) == After(kept, t);
    }
  }

  /** Whatever keeps an entry keeps every newer one. */
  lemma NewerAreKept(before: Seen, claim: Claim, kept: Seen, ttl: nat, capacity: nat, q: Question, t: nat)
    requires Evicts(Live(before, claim.now, ttl), kept, capacity) && q in before && q in kept && before[q].storedAt == t
    ensures After(kept, t) == After(before, t)
  {
    var live := Live(before, claim.now, ttl);
    assert q in live;
    forall x ensures x in After(before, t) <==> x in After(kept, t) {
      if x in After(before, t) { assert x in live && live[x].storedAt > live[q].storedAt; }
    }
  }

  /** Nothing else was granted at the very instant of this claim. */
  ghost predicate AloneAtItsInstant(run: seq<Claim>, i: nat, k: nat)
    requires i < |run|
  {
    forall x :: 0 <= x < k && x < |run| && x != i && run[x].granted ==> run[x].now != run[i].now
  }

  lemma {:induction false} AloneCounts(run: seq<Claim>, i: nat, k: nat)
    requires i < k <= |run| && run[i].granted && AloneAtItsInstant(run, i, k)
    requires forall a, b :: 0 <= a <= b < |run| ==> run[a].now <= run[b].now
    ensures GrantedSince(run, k, run[i].now) == GrantedAfter(run, k, run[i].now) + 1
    decreases k
  {
    if k == i + 1 {
      NoneSince(run, i, run[i].now);
      NoneBefore(run, i, run[i].now);
    } else {
      AloneCounts(run, i, k - 1);
    }
  }

  lemma {:induction false} NoneSince(run: seq<Claim>, k: nat, t: nat)
    requires k <= |run| && forall x :: 0 <= x < k && run[x].granted ==> run[x].now < t
    ensures GrantedSince(run, k, t) == 0
  {
    if k == 0 {
    } else {
      NoneSince(run, k - 1, t);
    }
  }

  /** Once its lifetime ran out, or a capacity of others was granted after it, a question is granted again. */
  lemma ForgottenIsGrantedAgain(run: seq<Claim>, states: seq<Seen>, ttl: nat, capacity: nat, i: nat, j: nat)
    requires IsRun(run, states, ttl, capacity) && i < j < |run| && capacity > 0
    requires run[i].granted && run[i].question == run[j].question && NotRegranted(run, i, j)
    requires run[j].now - run[i].now >= ttl || GrantedAfter(run, j, run[i].now) >= capacity
    ensures run[j].granted
  {
    var q := run[i].question;
    assert StepAt(run, states, ttl, capacity, j);
    if q in states[j] {
      StoredTimeStays(run, states, ttl, capacity, i, j);
      NewerAreStored(run, states, ttl, capacity, i, j);
      SeenSetIsBounded(run, states, ttl, capacity, j);
      assert |After(states[j], run[i].now) + {q}| == |After(states[j], run[i].now)| + 1;
      SubsetSize(After(states[j], run[i].now) + {q}, states[j].Keys);
      assert |states[j]| == |states[j].Keys|;
    }
  }

  /** The exact condition, when nothing else was granted at that very instant: a question granted here is
    * granted again if and only if its lifetime ran out, or a full capacity of other asks was granted since. */
  lemma WalkedAgainExactlyWhen(run: seq<Claim>, states: seq<Seen>, ttl: nat, capacity: nat, i: nat, j: nat)
    requires IsRun(run, states, ttl, capacity) && i < j < |run| && capacity > 0
    requires run[i].granted && run[i].question == run[j].question && NotRegranted(run, i, j)
    requires AloneAtItsInstant(run, i, j)
    ensures run[j].granted <==> run[j].now - run[i].now >= ttl || GrantedAfter(run, j, run[i].now) >= capacity
  {
    AloneCounts(run, i, j);
    if run[j].granted { WalkedTwiceOnlyWhenForgotten(run, states, ttl, capacity, i, j); }
    if run[j].now - run[i].now >= ttl || GrantedAfter(run, j, run[i].now) >= capacity {
      ForgottenIsGrantedAgain(run, states, ttl, capacity, i, j);
    }
  }

  // ---------------------------------------------------------------------------------------------
  // Runs that do forget
  // ---------------------------------------------------------------------------------------------

  lemma {:induction false} OldestExists<K, V>(m: map<K, Entry<V>>, keys: set<K>) returns (oldest: K)
    requires keys != {} && keys <= m.Keys
    ensures oldest in keys && forall k :: k in keys ==> m[oldest].storedAt <= m[k].storedAt
    decreases keys
  {
    oldest :| oldest in keys;
    if keys == {oldest} {
    } else {
      var other := OldestExists(m, keys - {oldest});
      forall k | k in keys && k != oldest ensures m[other].storedAt <= m[k].storedAt { assert k in keys - {oldest}; }
      if m[other].storedAt < m[oldest].storedAt { oldest := other; }
    }
  }

  /** Room can always be made. */
  lemma {:induction false} EvictionExists<K(!new), V(!new)>(live: map<K, Entry<V>>, capacity: nat)
    returns (kept: map<K, Entry<V>>)
    ensures Evicts(live, kept, capacity)
    decreases |live|
  {
    if |live| <= SaturatingSub(capacity, 1) {
      kept := live;
    } else {
      assert live.Keys != {};
      var oldest := OldestExists(live, live.Keys);
      Without(live, oldest);
      kept := EvictionExists(live - {oldest}, capacity);
      EvictsOneMore(live, oldest, kept, capacity);
    }
  }

  lemma EvictsOneMore<K(!new), V(!new)>(live: map<K, Entry<V>>, oldest: K, kept: map<K, Entry<V>>, capacity: nat)
    requires oldest in live && |live - {oldest}| == |live| - 1 >= SaturatingSub(capacity, 1)
    requires forall k :: k in live ==> live[oldest].storedAt <= live[k].storedAt
    requires Evicts(live - {oldest}, kept, capacity)
    ensures Evicts(live, kept, capacity)
  {
    forall k | k in kept ensures k in live && kept[k] == live[k] { assert k in live - {oldest}; }
    forall e, k | e in live && e !in kept && k in kept ensures live[e].storedAt <= live[k].storedAt {
      if e != oldest { assert e in live - {oldest}; }
    }
  }

  /** Every claim can be answered, one way or the other. */
  lemma EveryClaimIsAnswered(before: Seen, q: Question, now: nat, ttl: nat, capacity: nat)
    returns (granted: bool, after: Seen)
    ensures ClaimStep(before, Claim(q, now, granted), after, ttl, capacity)
  {
    granted := Answer(before, q, now, ttl).None?;
    if granted {
      var purged := AfterGet(before, q, now, ttl);
      var kept := EvictionExists(Live(purged, now, ttl), capacity);
      after := kept[q := Entry(now, ())];
      assert q !in Live(purged, now, ttl);
    } else {
      after := before;
    }
  }

  /** Any questions, at any times that never go back, make a run. */
  lemma {:induction false} EveryScheduleRuns(asked: seq<(Question, nat)>, ttl: nat, capacity: nat)
    returns (run: seq<Claim>, states: seq<Seen>)
    requires forall i, j :: 0 <= i <= j < |asked| ==> asked[i].1 <= asked[j].1
    ensures IsRun(run, states, ttl, capacity) && |run| == |asked|
    ensures forall i :: 0 <= i < |asked| ==> run[i].question == asked[i].0 && run[i].now == asked[i].1
  {
    if asked == [] {
      run, states := [], [map[]];
    } else {
      var n := |asked| - 1;
      var earlier, before := EveryScheduleRuns(asked[..n], ttl, capacity);
      var granted, after := EveryClaimIsAnswered(before[n], asked[n].0, asked[n].1, ttl, capacity);
      run, states := earlier + [Claim(asked[n].0, asked[n].1, granted)], before + [after];
      forall i | 0 <= i < |run| ensures StepAt(run, states, ttl, capacity, i) {
        if i < n { assert StepAt(earlier, before, ttl, capacity, i); }
      }
    }
  }

  /** The shipped set grants one question twice: the smallest run that outlives it. */
  lemma TwiceAfterItsLifetime(q: Question) returns (run: seq<Claim>, states: seq<Seen>)
    ensures IsRun(run, states, MAX_FORWARDED_ASK_BUDGET, ASK_SEEN_CAPACITY)
    ensures run == [Claim(q, 0, true), Claim(q, MAX_FORWARDED_ASK_BUDGET, true)]
  {
    run, states := EveryScheduleRuns([(q, 0), (q, MAX_FORWARDED_ASK_BUDGET)], MAX_FORWARDED_ASK_BUDGET,
                                     ASK_SEEN_CAPACITY);
    if !run[0].granted { RefusedOnlyAsADuplicate(run, states, MAX_FORWARDED_ASK_BUDGET, ASK_SEEN_CAPACITY, 0); }
    if !run[1].granted { RefusedOnlyAsADuplicate(run, states, MAX_FORWARDED_ASK_BUDGET, ASK_SEEN_CAPACITY, 1); }
    assert run == [Claim(q, 0, true), Claim(q, MAX_FORWARDED_ASK_BUDGET, true)];
  }

  /** As many different questions as the set holds and one more, a nanosecond apart, and the first again. */
  function Flood(): (asked: seq<(Question, nat)>) {
    seq(ASK_SEEN_CAPACITY + 2, k => ((if k == ASK_SEEN_CAPACITY + 1 then 0 else k, 0), k))
  }

  lemma {:induction false} CountOfAll(run: seq<Claim>, k: nat)
    requires 1 <= k <= |run| && run[0].now == 0 && forall x :: 0 < x < k ==> run[x].granted && run[x].now > 0
    ensures GrantedAfter(run, k, 0) == k - 1
  {
    if k == 1 {
    } else {
      CountOfAll(run, k - 1);
    }
  }

  /** And it grants one twice well inside its lifetime, once a capacity of others has passed through it. */
  lemma TwiceWithinItsLifetime() returns (run: seq<Claim>, states: seq<Seen>)
    ensures IsRun(run, states, MAX_FORWARDED_ASK_BUDGET, ASK_SEEN_CAPACITY) && |run| == ASK_SEEN_CAPACITY + 2
    ensures run[0].granted && run[ASK_SEEN_CAPACITY + 1].granted
    ensures run[0].question == run[ASK_SEEN_CAPACITY + 1].question
    ensures run[ASK_SEEN_CAPACITY + 1].now - run[0].now < MAX_FORWARDED_ASK_BUDGET
  {
    run, states := EveryScheduleRuns(Flood(), MAX_FORWARDED_ASK_BUDGET, ASK_SEEN_CAPACITY);
    var last := ASK_SEEN_CAPACITY + 1;
    forall k | 0 <= k < last ensures run[k].granted {
      if !run[k].granted { RefusedOnlyAsADuplicate(run, states, MAX_FORWARDED_ASK_BUDGET, ASK_SEEN_CAPACITY, k); }
    }
    CountOfAll(run, last);
    ForgottenIsGrantedAgain(run, states, MAX_FORWARDED_ASK_BUDGET, ASK_SEEN_CAPACITY, 0, last);
  }

  // ---------------------------------------------------------------------------------------------
  // The first-hand holders
  // ---------------------------------------------------------------------------------------------

  const HOLDER_CACHE_TTL: nat := 300 * NANOS_PER_SEC
  const HOLDER_CACHE_CAPACITY: nat := 4096

  /** The records of a slate the network still credits, in their order. */
  function Unexpired(records: Slate, nowSecs: nat): Slate {
    if records == [] then [] else
      Unexpired(records[..|records| - 1], nowSecs)
        + (if nowSecs < records[|records| - 1].expiresAt then [records[|records| - 1]] else [])
  }

  lemma {:induction false} UnexpiredMeans(records: Slate, nowSecs: nat, r: ProviderRecord)
    ensures r in Unexpired(records, nowSecs) <==> r in records && nowSecs < r.expiresAt
  {
    if records == [] {
    } else {
      UnexpiredMeans(records[..|records| - 1], nowSecs, r);
      assert records == records[..|records| - 1] + [records[|records| - 1]];
    }
  }

  /** Dropping expired records never reorders the rest. */
  lemma {:induction false} UnexpiredKeepsOrder(a: Slate, b: Slate, nowSecs: nat)
    ensures Unexpired(a + b, nowSecs) == Unexpired(a, nowSecs) + Unexpired(b, nowSecs)
  {
    if b == [] {
      assert a + b == a;
    } else {
      var n := |b| - 1;
      assert (a + b)[..|a| + n] == a + b[..n];
      UnexpiredKeepsOrder(a, b[..n], nowSecs);
    }
  }

  /** What is kept is every record that has not expired and no other, in slate order and as often as it is there. */
  lemma {:induction false} UnexpiredSelects(records: Slate, nowSecs: nat) returns (picks: seq<nat>)
    ensures Selects(records, picks, Unexpired(records, nowSecs))
    ensures forall i :: 0 <= i < |records| ==> (i in picks <==> nowSecs < records[i].expiresAt)
  {
    if records == [] {
      picks := [];
    } else {
      var n := |records| - 1;
      picks := UnexpiredSelects(records[..n], nowSecs);
      SelectsOneMore(records, picks, Unexpired(records[..n], nowSecs));
      assert forall i :: 0 <= i < n ==> records[..n][i] == records[i];
      if nowSecs < records[n].expiresAt {
        picks := picks + [n];
      } else {
        assert Unexpired(records[..n], nowSecs) + [] == Unexpired(records[..n], nowSecs);
      }
    }
  }

  type Holders = map<ContentId, Entry<Slate>>

  /** Some record of this slate has not expired. */
  ghost predicate Credits(slate: Slate, nowSecs: nat) { exists r :: r in slate && nowSecs < r.expiresAt }

  /** Something was stored for the content, within the lifetime, and a record of it has not expired. */
  ghost predicate HoldsCurrent(holders: Holders, content: ContentId, now: nat, nowSecs: nat) {
    && content in holders && now < holders[content].storedAt + HOLDER_CACHE_TTL
    && Credits(holders[content].value, nowSecs)
  }

  /** This is every record of the stored slate that has not expired and no other, in slate order and as often as it
    * is there. */
  ghost predicate IsCurrentPart(slate: Slate, stored: Slate, nowSecs: nat) {
    exists picks :: Selects(stored, picks, slate)
      && forall i :: 0 <= i < |stored| ==> (i in picks <==> nowSecs < stored[i].expiresAt)
  }

  /** What a lookup of remembered holders answers. */
  function Recalled(holders: Holders, content: ContentId, now: nat, nowSecs: nat): Option<Slate> {
    var stored := Answer(holders, content, now, HOLDER_CACHE_TTL);
    if stored.Some? && Unexpired(stored.value, nowSecs) != [] then Some(Unexpired(stored.value, nowSecs)) else None
  }

  class FirstHandHolderCache {
    const holders: TtlMap<ContentId, Slate>

    constructor ()
      ensures fresh(holders) && holders.entries == map[] && Valid()
    {
      holders := new TtlMap(HOLDER_CACHE_TTL, HOLDER_CACHE_CAPACITY);
    }

    predicate Valid() { holders.ttl == HOLDER_CACHE_TTL && holders.capacity == HOLDER_CACHE_CAPACITY }

    method GetAt(content: ContentId, now: nat, nowSecs: nat) returns (r: Option<Slate>)
      requires Valid()
      modifies holders
      ensures r == Recalled(old(holders.entries), content, now, nowSecs)
      ensures holders.entries == if r.Some? then old(holders.entries) else old(holders.entries) - {content}
      ensures r.Some? <==> HoldsCurrent(old(holders.entries), content, now, nowSecs)
      ensures r.Some? ==> IsCurrentPart(r.value, old(holders.entries)[content].value, nowSecs)
    {
      RecalledExactlyWhen(holders.entries, content, now, nowSecs);
      var stored := holders.Get(content, now);
      if stored.None? {
        return None;
      }
      var records := Unexpired(stored.value, nowSecs);
      if records == [] {
        holders.Remove(content);
        return None;
      }
      r := Some(records);
    }

    method Remember(content: ContentId, records: Slate, now: nat)
      requires Valid()
      modifies holders
      ensures records == [] ==> holders.entries == old(holders.entries)
      ensures records != [] ==>
        Stores(old(holders.entries), holders.entries, content, records, now, HOLDER_CACHE_TTL, HOLDER_CACHE_CAPACITY)
    {
      if records == [] { return; }
      holders.Insert(content, records, now);
    }

    method Forget(content: ContentId)
      modifies holders
      ensures holders.entries == old(holders.entries) - {content}
    {
      holders.Remove(content);
    }
  }

  /** Recalling, exactly: something is recalled when something was stored within the lifetime and a record of it has
    * not expired, and then it is the records that have not, all of them and in their order. */
  lemma RecalledExactlyWhen(holders: Holders, content: ContentId, now: nat, nowSecs: nat)
    ensures var r := Recalled(holders, content, now, nowSecs);
      && (r.Some? <==> HoldsCurrent(holders, content, now, nowSecs))
      && (r.Some? ==> IsCurrentPart(r.value, holders[content].value, nowSecs))
  {
    if content in holders {
      var stored := holders[content].value;
      SomethingIsUnexpired(stored, nowSecs);
      assert IsCurrentPart(Unexpired(stored, nowSecs), stored, nowSecs) by {
        UnexpiredIsTheCurrentPart(stored, nowSecs);
      }
    }
  }

  lemma SomethingIsUnexpired(stored: Slate, nowSecs: nat)
    ensures Unexpired(stored, nowSecs) != [] <==> Credits(stored, nowSecs)
  {
    if r :| r in stored && nowSecs < r.expiresAt { UnexpiredMeans(stored, nowSecs, r); }
    if Unexpired(stored, nowSecs) != [] { UnexpiredMeans(stored, nowSecs, Unexpired(stored, nowSecs)[0]); }
  }

  lemma UnexpiredIsTheCurrentPart(stored: Slate, nowSecs: nat)
    ensures IsCurrentPart(Unexpired(stored, nowSecs), stored, nowSecs)
  {
    var picks := UnexpiredSelects(stored, nowSecs);
  }

  /** What was remembered is there to be recalled: after storing a slate, exactly its own records that have not expired
    * are recalled for as long as the lifetime runs, and then nothing. */
  lemma WhatIsRememberedIsRecalled(before: Holders, after: Holders, content: ContentId, records: Slate, at: nat,
                                   now: nat, nowSecs: nat)
    requires Stores(before, after, content, records, at, HOLDER_CACHE_TTL, HOLDER_CACHE_CAPACITY)
    ensures var r := Recalled(after, content, now, nowSecs);
      && (r.Some? <==> now < at + HOLDER_CACHE_TTL && Credits(records, nowSecs))
      && (r.Some? ==> IsCurrentPart(r.value, records, nowSecs))
  {
    RecalledExactlyWhen(after, content, now, nowSecs);
    assert after[content] == Entry(at, records);
  }

  /** What is recalled is never an absence, never expired by either clock, and nothing but what was stored. */
  lemma RecalledIsCurrent(holders: Holders, content: ContentId, now: nat, nowSecs: nat)
    requires Recalled(holders, content, now, nowSecs).Some?
    ensures var slate := Recalled(holders, content, now, nowSecs).value;
      && slate != [] && content in holders && now < holders[content].storedAt + HOLDER_CACHE_TTL
      && forall r :: r in slate <==> r in holders[content].value && nowSecs < r.expiresAt
  {
    forall r ensures r in Unexpired(holders[content].value, nowSecs)
                     <==> r in holders[content].value && nowSecs < r.expiresAt
    {
      UnexpiredMeans(holders[content].value, nowSecs, r);
    }
  }
}
