/** Locating the holders of missed content: this node's own findings, what its peers relay, and what the two
  * together establish. */
module LocateHolders {
  import opened Common
  import opened ProviderRecords
  import opened HolderCache
  import opened HopBudget
  import opened ForwardedAsk

  datatype Provenance = FirstHand | Hearsay

  datatype Tagged = Tagged(record: ProviderRecord, provenance: Provenance)

  datatype LocatedHolders = LocatedHolders(records: seq<Tagged>, conclusive: bool) {
    predicate EstablishesAbsence() { records == [] && conclusive }
  }

  function Candidates(records: seq<Tagged>): Slate {
    if records == [] then [] else Candidates(records[..|records| - 1]) + [records[|records| - 1].record]
  }

  function WithProvenance(records: Slate, provenance: Provenance): (r: seq<Tagged>)
    ensures |r| == |records|
  {
    if records == [] then [] else
      WithProvenance(records[..|records| - 1], provenance) + [Tagged(records[|records| - 1], provenance)]
  }

  /** The contract of the merging crate: everything first-hand, in order, then a capped prefix of hearsay. */
  function MergeAnswers(config: Config, mine: Slate, theirs: Slate): seq<Tagged> {
    WithProvenance(mine, FirstHand) + WithProvenance(theirs[..Min(config.hearsayCap, |theirs|)], Hearsay)
  }

  // ---------------------------------------------------------------------------------------------
  // Dropping this node and duplicates
  // ---------------------------------------------------------------------------------------------

  predicate Names(r: ProviderRecord, me: Option<string>) { me.Some? && r.peerId == me.value }

  function ExcludingSelf(records: Slate, me: Option<string>): Slate {
    if records == [] then [] else
      ExcludingSelf(records[..|records| - 1], me)
        + (if Names(records[|records| - 1], me) then [] else [records[|records| - 1]])
  }

  function ExcludingSelfTagged(records: seq<Tagged>, me: Option<string>): seq<Tagged> {
    if records == [] then [] else
      ExcludingSelfTagged(records[..|records| - 1], me)
        + (if Names(records[|records| - 1].record, me) then [] else [records[|records| - 1]])
  }

  predicate Mentions(records: seq<Tagged>, peerId: string) {
    exists i :: 0 <= i < |records| && records[i].record.peerId == peerId
  }

  /** One record per holder, the first. */
  function Deduped(records: seq<Tagged>): seq<Tagged> {
    if records == [] then [] else
      var n := |records| - 1;
      Deduped(records[..n]) + (if Mentions(records[..n], records[n].record.peerId) then [] else [records[n]])
  }

  method RetainExcludingSelf(records: Slate, me: Option<string>) returns (kept: Slate)
    ensures kept == ExcludingSelf(records, me)
  {
    kept := [];
    for i := 0 to |records|
      invariant kept == ExcludingSelf(records[..i], me)
    {
      assert records[..i + 1][..i] == records[..i];
      if !(me.Some? && records[i].peerId == me.value) { kept := kept + [records[i]]; }
    }
    assert records[..|records|] == records;
  }

  method RetainExcludingSelfTagged(records: seq<Tagged>, me: Option<string>) returns (kept: seq<Tagged>)
    ensures kept == ExcludingSelfTagged(records, me)
  {
    kept := [];
    for i := 0 to |records|
      invariant kept == ExcludingSelfTagged(records[..i], me)
    {
      assert records[..i + 1][..i] == records[..i];
      if !(me.Some? && records[i].record.peerId == me.value) { kept := kept + [records[i]]; }
    }
    assert records[..|records|] == records;
  }

  method DedupByPeerTagged(records: seq<Tagged>) returns (kept: seq<Tagged>)
    ensures kept == Deduped(records)
  {
    kept := [];
    var seen: set<string> := {};
    for i := 0 to |records|
      invariant kept == Deduped(records[..i])
      invariant forall p :: p in seen <==> Mentions(records[..i], p)
    {
      assert records[..i + 1][..i] == records[..i];
      MentionsOneMore(records, i);
      var peer := records[i].record.peerId;
      if peer !in seen { kept := kept + [records[i]]; }
      seen := seen + {peer};
    }
    assert records[..|records|] == records;
  }

  lemma MentionsAppended(records: seq<Tagged>, r: Tagged)
    ensures forall p :: Mentions(records + [r], p) <==> Mentions(records, p) || p == r.record.peerId
  {
    forall p ensures Mentions(records + [r], p) <==> Mentions(records, p) || p == r.record.peerId {
      if Mentions(records, p) {
        var j :| 0 <= j < |records| && records[j].record.peerId == p;
        assert (records + [r])[j].record.peerId == p;
      }
      assert (records + [r])[|records|].record.peerId == r.record.peerId;
    }
  }

  lemma MentionsOneMore(records: seq<Tagged>, i: nat)
    requires i < |records|
    ensures forall p :: Mentions(records[..i + 1], p) <==> Mentions(records[..i], p) || p == records[i].record.peerId
  {
    assert records[..i + 1] == records[..i] + [records[i]];
    MentionsAppended(records[..i], records[i]);
  }

  // ---------------------------------------------------------------------------------------------
  // Locating
  // ---------------------------------------------------------------------------------------------

  /** The whole answer, from this node's own findings and the leg's. */
  function Combined(config: Config, mine: Slate, mineConclusive: bool, answers: ForwardedAnswers,
                    me: Option<string>): LocatedHolders {
    LocatedHolders(Deduped(ExcludingSelfTagged(MergeAnswers(config, mine, answers.records), me)),
                   mineConclusive && answers.conclusive)
  }

  /** This node's own findings: a remembered slate, else a walk, whose failure stays a failure. */
  function OwnSearch(cached: Option<Slate>, walk: Result<Slate>, me: Option<string>): Result<Slate> {
    if cached.Some? then Ok(cached.value)
    else if walk.Ok? then Ok(ExcludingSelf(walk.value, me))
    else Err
  }

  function Located(config: Config, own: Result<Slate>, answers: ForwardedAnswers, me: Option<string>): LocatedHolders {
    Combined(config, if own.Ok? then own.value else [], own.Ok?, answers, me)
  }

  /** The instants one locate reads: looking in the cache, on both its clocks, storing in it, and asking. */
  datatype Instants = Instants(now: nat, nowSecs: nat, stored: nat, asked: nat)

  /** `walk` is what walking the network for providers gives, should it come to that. */
  method Locate(content: ContentId, budget: HopBudget, me: Option<string>, walk: Result<Slate>, env: Env,
                cache: FirstHandHolderCache, seen: AskSeenSet, slots: AskSlots, at: Instants)
    returns (located: LocatedHolders, ghost own: Result<Slate>, ghost leg: Leg, ghost claimed: bool)
    requires cache.Valid() && slots.Valid()
    modifies cache.holders, seen.seen, slots
    ensures slots.Valid() && slots.held == old(slots.held)
    ensures own == OwnSearch(Recalled(old(cache.holders.entries), content, at.now, at.nowSecs), walk, me)
    ensures leg == Forwarded(budget, env.WithSlots(old(slots.held)), claimed, at.asked)
    ensures !env.Reaches() ==> seen.seen.entries == old(seen.seen.entries)
    ensures env.Reaches() ==>
      ClaimStep(old(seen.seen.entries), Claim((budget.askId, content), at.asked, claimed), seen.seen.entries,
                seen.seen.ttl, seen.seen.capacity)
    ensures located == Located(env.Bounds(), own, leg.answers, me)
    ensures Remembers(old(cache.holders.entries), cache.holders.entries, content, walk, me, at)
  {
    own := OwnSearch(Recalled(cache.holders.entries, content, at.now, at.nowSecs), walk, me);
    var mine, conclusive := FindFirstHand(content, me, walk, cache, at);
    ghost var kept := cache.holders.entries;
    var answers, end;
    answers, end, leg, claimed := ForwardedHolders(content, budget, env, seen, slots, at.asked);
    assert cache.holders.entries == kept;
    var records := MergeAnswers(env.Bounds(), mine, answers.records);
    records := RetainExcludingSelfTagged(records, me);
    records := DedupByPeerTagged(records);
    located := LocatedHolders(records, conclusive && answers.conclusive);
  }

  method FindFirstHand(content: ContentId, me: Option<string>, walk: Result<Slate>, cache: FirstHandHolderCache,
                       at: Instants) returns (mine: Slate, conclusive: bool)
    requires cache.Valid()
    modifies cache.holders
    ensures var own := OwnSearch(Recalled(old(cache.holders.entries), content, at.now, at.nowSecs), walk, me);
      conclusive == own.Ok? && mine == if own.Ok? then own.value else []
    ensures Remembers(old(cache.holders.entries), cache.holders.entries, content, walk, me, at)
  {
    var cached := cache.GetAt(content, at.now, at.nowSecs);
    if cached.Some? {
      return cached.value, true;
    }
    if walk.Err? {
      return [], false;
    }
    mine := RetainExcludingSelf(walk.value, me);
    conclusive := true;
    cache.Remember(content, mine, at.stored);
  }

  /** What locating leaves remembered: only this node's own walk, only when it found somebody. */
  ghost predicate Remembers(before: Holders, after: Holders, content: ContentId, walk: Result<Slate>,
                            me: Option<string>, at: Instants)
  {
    if Recalled(before, content, at.now, at.nowSecs).Some? then after == before
    else if walk.Err? || ExcludingSelf(walk.value, me) == [] then after == before - {content}
    else Stores(before - {content}, after, content, ExcludingSelf(walk.value, me), at.stored, HOLDER_CACHE_TTL,
                HOLDER_CACHE_CAPACITY)
  }

  // ---------------------------------------------------------------------------------------------
  // Lists of records
  // ---------------------------------------------------------------------------------------------

  lemma {:induction false} ExcludingSelfMeans(records: Slate, me: Option<string>, r: ProviderRecord)
    ensures r in ExcludingSelf(records, me) <==> r in records && !Names(r, me)
  {
    if records == [] {
    } else {
      ExcludingSelfMeans(records[..|records| - 1], me, r);
      assert records == records[..|records| - 1] + [records[|records| - 1]];
    }
  }

  lemma {:induction false} ExcludingSelfTaggedMeans(records: seq<Tagged>, me: Option<string>, r: Tagged)
    ensures r in ExcludingSelfTagged(records, me) <==> r in records && !Names(r.record, me)
  {
    if records == [] {
    } else {
      ExcludingSelfTaggedMeans(records[..|records| - 1], me, r);
      assert records == records[..|records| - 1] + [records[|records| - 1]];
    }
  }

  lemma {:induction false} ProvenanceMeans(records: Slate, provenance: Provenance, r: Tagged)
    ensures r in WithProvenance(records, provenance) <==> r.record in records && r.provenance == provenance
  {
    if records == [] {
    } else {
      ProvenanceMeans(records[..|records| - 1], provenance, r);
      assert records == records[..|records| - 1] + [records[|records| - 1]];
    }
  }

  predicate DistinctPeers(records: seq<Tagged>) {
    forall i, j :: 0 <= i < j < |records| ==> records[i].record.peerId != records[j].record.peerId
  }

  lemma {:induction false} DedupedMentions(records: seq<Tagged>, p: string)
    ensures Mentions(Deduped(records), p) <==> Mentions(records, p)
  {
    if records == [] {
    } else {
      var n := |records| - 1;
      DedupedMentions(records[..n], p);
      DedupedMentions(records[..n], records[n].record.peerId);
      assert records == records[..n] + [records[n]];
      MentionsAppended(records[..n], records[n]);
      var d := Deduped(records[..n]);
      MentionsAppended(d, records[n]);
      assert Deduped(records) == if Mentions(records[..n], records[n].record.peerId) then d else d + [records[n]];
      assert Mentions(records, p) <==> Mentions(records[..n], p) || p == records[n].record.peerId;
    }
  }

  lemma {:induction false} DedupedIsDistinct(records: seq<Tagged>)
    ensures DistinctPeers(Deduped(records))
  {
    if records == [] {
    } else {
      var n := |records| - 1;
      DedupedIsDistinct(records[..n]);
      DedupedMentions(records[..n], records[n].record.peerId);
    }
  }

  lemma {:induction false} DedupedKeeps(records: seq<Tagged>)
    ensures forall r :: r in Deduped(records) ==> r in records
  {
    if records == [] {
    } else {
      DedupedKeeps(records[..|records| - 1]);
      assert records == records[..|records| - 1] + [records[|records| - 1]];
    }
  }

  /** The record kept for a peer is the first that names it. */
  lemma {:induction false} DedupedKeepsFirst(records: seq<Tagged>, i: nat)
    requires i < |records| && !Mentions(records[..i], records[i].record.peerId)
    ensures records[i] in Deduped(records)
  {
    var n := |records| - 1;
    if i == n {
    } else {
      assert records[..n][..i] == records[..i];
      DedupedKeepsFirst(records[..n], i);
    }
  }

  /** Deduplication keeps no peer twice and loses none, and what it keeps it had. */
  lemma DedupedMeans(records: seq<Tagged>)
    ensures DistinctPeers(Deduped(records))
    ensures forall p :: Mentions(Deduped(records), p) <==> Mentions(records, p)
    ensures forall r :: r in Deduped(records) ==> r in records
  {
    DedupedIsDistinct(records);
    DedupedKeeps(records);
    forall p ensures Mentions(Deduped(records), p) <==> Mentions(records, p) { DedupedMentions(records, p); }
  }

  lemma {:induction false} ExcludingBoth(a: seq<Tagged>, b: seq<Tagged>, me: Option<string>)
    ensures ExcludingSelfTagged(a + b, me) == ExcludingSelfTagged(a, me) + ExcludingSelfTagged(b, me)
  {
    if b == [] {
      assert a + b == a;
    } else {
      var n := |b| - 1;
      assert (a + b)[..|a| + n] == a + b[..n];
      ExcludingBoth(a, b[..n], me);
    }
  }

  /** What comes first stays in front: deduplicating a longer list only adds records of its second part. */
  lemma {:induction false} DedupedExtends(a: seq<Tagged>, b: seq<Tagged>)
    ensures |Deduped(a)| <= |Deduped(a + b)| && Deduped(a + b)[..|Deduped(a)|] == Deduped(a)
    ensures forall i :: |Deduped(a)| <= i < |Deduped(a + b)| ==> Deduped(a + b)[i] in b
  {
    if b == [] {
      assert a + b == a;
    } else {
      var n := |b| - 1;
      assert (a + b)[..|a| + n] == a + b[..n];
      DedupedExtends(a, b[..n]);
      assert b == b[..n] + [b[n]];
    }
  }

  // ---------------------------------------------------------------------------------------------
  // What an absence takes
  // ---------------------------------------------------------------------------------------------

  /** No remembered slate names this node. */
  ghost predicate Clean(holders: Holders, me: Option<string>) {
    forall c, r :: c in holders && r in holders[c].value ==> !Names(r, me)
  }

  /** Remembering keeps it so: only this node's own walk is ever stored, with this node left out of it. */
  lemma RememberingStaysClean(before: Holders, after: Holders, content: ContentId, walk: Result<Slate>,
                              me: Option<string>, at: Instants)
    requires Clean(before, me) && Remembers(before, after, content, walk, me, at)
    ensures Clean(after, me)
  {
    if Recalled(before, content, at.now, at.nowSecs).None? && walk.Ok? {
      forall r | r in ExcludingSelf(walk.value, me) ensures !Names(r, me) { ExcludingSelfMeans(walk.value, me, r); }
    }
  }

  /** Whatever a peer relays, no remembered slate ever holds it: what is remembered after a locate is, entry
    * by entry, what was remembered before or what this node's own walk just found. */
  lemma HearsayIsNeverRemembered(before: Holders, after: Holders, content: ContentId, walk: Result<Slate>,
                                 me: Option<string>, at: Instants, c: ContentId)
    requires Remembers(before, after, content, walk, me, at) && c in after
    ensures (c in before && after[c] == before[c])
      || (c == content && walk.Ok? && after[c].value == ExcludingSelf(walk.value, me) && after[c].value != []
          && after[c].storedAt == at.stored)
  {
  }

  lemma {:induction false} ExcludingSelfSelects(records: Slate, me: Option<string>) returns (picks: seq<nat>)
    ensures Selects(records, picks, ExcludingSelf(records, me))
    ensures forall i :: 0 <= i < |records| ==> (i in picks <==> me != Some(records[i].peerId))
  {
    if records == [] {
      picks := [];
    } else {
      var n := |records| - 1;
      picks := ExcludingSelfSelects(records[..n], me);
      SelectsOneMore(records, picks, ExcludingSelf(records[..n], me));
      assert forall i :: 0 <= i < n ==> records[..n][i] == records[i];
      if Names(records[n], me) {
        assert ExcludingSelf(records[..n], me) + [] == ExcludingSelf(records[..n], me);
      } else {
        picks := picks + [n];
      }
    }
  }

  /** What a locate leaves remembered for its content, exactly: what was recalled, unchanged; otherwise what this
    * node's own walk named besides itself, all of it and in its order, if it named anybody, and nothing if not. */
  lemma WhatALocateRemembers(before: Holders, after: Holders, content: ContentId, walk: Result<Slate>,
                             me: Option<string>, at: Instants) returns (picks: seq<nat>)
    requires Remembers(before, after, content, walk, me, at)
    ensures Recalled(before, content, at.now, at.nowSecs).Some? ==> after == before
    ensures Recalled(before, content, at.now, at.nowSecs).None? ==>
      && (content in after <==> walk.Ok? && exists i :: 0 <= i < |walk.value| && me != Some(walk.value[i].peerId))
      && (content in after ==>
            && after[content].storedAt == at.stored && Selects(walk.value, picks, after[content].value)
            && forall i :: 0 <= i < |walk.value| ==> (i in picks <==> me != Some(walk.value[i].peerId)))
  {
    picks := [];
    if Recalled(before, content, at.now, at.nowSecs).None? && walk.Ok? {
      SomebodyElse(walk.value, me);
      assert content in after ==> after[content] == Entry(at.stored, ExcludingSelf(walk.value, me));
      if content in after { picks := ExcludingSelfSelects(walk.value, me); }
    }
  }

  lemma SomebodyElse(records: Slate, me: Option<string>)
    ensures ExcludingSelf(records, me) != [] <==> exists i :: 0 <= i < |records| && me != Some(records[i].peerId)
  {
    var kept := ExcludingSelf(records, me);
    if kept != [] { ExcludingSelfMeans(records, me, kept[0]); }
    if i :| 0 <= i < |records| && me != Some(records[i].peerId) { ExcludingSelfMeans(records, me, records[i]); }
  }

  /** An absence is established exactly when asking peers was never part of this node's answer and its own
    * search completed and named nobody but itself. */
  lemma AbsenceExactlyWhen(holders: Holders, content: ContentId, walk: Result<Slate>, budget: HopBudget, env: Env,
                           me: Option<string>, claimed: bool, at: Instants)
    requires Clean(holders, me)
    ensures var cached := Recalled(holders, content, at.now, at.nowSecs);
      var answers := Forwarded(budget, env, claimed, at.asked).answers;
      Located(env.Bounds(), OwnSearch(cached, walk, me), answers, me).EstablishesAbsence()
      <==> && (!env.installed || env.decision == Refuse(Disabled))
           && cached.None? && walk.Ok? && (forall r :: r in walk.value ==> Names(r, me))
  {
    var cached := Recalled(holders, content, at.now, at.nowSecs);
    var own, answers := OwnSearch(cached, walk, me), Forwarded(budget, env, claimed, at.asked).answers;
    ConclusiveExactlyWhenNeverOffered(budget, env, claimed, at.asked);
    if answers.conclusive && own.Ok? {
      EmptyExactlyWhen(env.Bounds(), own.value, me);
      if cached.Some? {
        RecalledIsCurrent(holders, content, at.now, at.nowSecs);
        assert cached.value[0] in cached.value;
      } else {
        forall r ensures r in own.value <==> r in walk.value && !Names(r, me) { ExcludingSelfMeans(walk.value, me, r); }
      }
    }
  }

  /** Alone, this node's findings leave nothing exactly when they name nobody but this node. */
  lemma EmptyExactlyWhen(config: Config, mine: Slate, me: Option<string>)
    ensures Deduped(ExcludingSelfTagged(MergeAnswers(config, mine, []), me)) == []
      <==> forall r :: r in mine ==> Names(r, me)
  {
    var merged := MergeAnswers(config, mine, []);
    assert merged == WithProvenance(mine, FirstHand);
    var kept := ExcludingSelfTagged(merged, me);
    DedupedMeans(kept);
    forall r ensures Tagged(r, FirstHand) in kept <==> r in mine && !Names(r, me) {
      ExcludingSelfTaggedMeans(merged, me, Tagged(r, FirstHand));
      ProvenanceMeans(mine, FirstHand, Tagged(r, FirstHand));
    }
    if kept == [] {
      forall r | r in mine ensures Names(r, me) { assert Tagged(r, FirstHand) !in kept; }
    } else {
      assert Mentions(kept, kept[0].record.peerId);
      assert kept[0] in kept;
      ExcludingSelfTaggedMeans(merged, me, kept[0]);
      ProvenanceMeans(mine, FirstHand, kept[0]);
    }
  }

  /** Absence is non-interfering in one locate: two worlds that differ only in what peers answer, and how fast,
    * establish the same absence. */
  lemma AbsenceIgnoresPeers(own: Result<Slate>, budget: HopBudget, env: Env, other: string -> Exchange,
                            me: Option<string>, claimed: bool, now: nat)
    ensures var here := Forwarded(budget, env, claimed, now).answers;
      var there := Forwarded(budget, env.(exchange := other), claimed, now).answers;
      Located(env.Bounds(), own, here, me).EstablishesAbsence()
      <==> Located(env.Bounds(), own, there, me).EstablishesAbsence()
  {
    ConclusiveExactlyWhenNeverOffered(budget, env, claimed, now);
    ConclusiveExactlyWhenNeverOffered(budget, env.(exchange := other), claimed, now);
  }

  // ---------------------------------------------------------------------------------------------
  // Whole runs of locates
  // ---------------------------------------------------------------------------------------------

  /** What happens to the cache: a locate, of which this is everything but the peers' part; a download that
    * reached none of the candidates and has the content forgotten; or a miss answered without a search. */
  datatype CacheEvent =
    | Locates(content: ContentId, walk: Result<Slate>, at: Instants)
    | Forgets(content: ContentId)
    | Rests

  ghost predicate CacheStep(before: Holders, e: CacheEvent, after: Holders, me: Option<string>) {
    match e
    case Locates(content, walk, at) => Remembers(before, after, content, walk, me, at)
    case Forgets(content) => after == before - {content}
    case Rests => after == before
  }

  ghost predicate CacheStepAt(events: seq<CacheEvent>, caches: seq<Holders>, me: Option<string>, i: nat)
    requires i < |events| && |caches| == |events| + 1
  {
    CacheStep(caches[i], events[i], caches[i + 1], me)
  }

  /** A run of the cache, from empty. */
  ghost predicate CacheRun(events: seq<CacheEvent>, caches: seq<Holders>, me: Option<string>) {
    && |caches| == |events| + 1 && caches[0] == map[]
    && forall i :: 0 <= i < |events| ==> CacheStepAt(events, caches, me, i)
  }

  /** In every run, no remembered slate ever names this node. */
  lemma {:induction false} EveryCacheIsClean(events: seq<CacheEvent>, caches: seq<Holders>, me: Option<string>, k: nat)
    requires CacheRun(events, caches, me) && k <= |events|
    ensures Clean(caches[k], me)
  {
    if k == 0 {
    } else {
      EveryCacheIsClean(events, caches, me, k - 1);
      assert CacheStepAt(events, caches, me, k - 1);
      match events[k - 1] {
        case Locates(content, walk, at) => RememberingStaysClean(caches[k - 1], caches[k], content, walk, me, at);
        case Forgets(_) =>
        case Rests =>
      }
    }
  }

  /** The rest of a locate, which peers have a hand in: the budget they sent, whom the decision picks among them,
    * whether the question came by another path, the slots and the relay budget, and all they answer. */
  datatype PeersPart = PeersPart(budget: HopBudget, asker: Option<string>, env: Env, claimed: bool)

  function AbsenceAt(holders: Holders, e: CacheEvent, part: PeersPart, me: Option<string>): bool
    requires e.Locates?
  {
    Located(part.env.Bounds(), OwnSearch(Recalled(holders, e.content, e.at.now, e.at.nowSecs), e.walk, me),
            Forwarded(part.budget, part.env, part.claimed, e.at.asked).answers, me).EstablishesAbsence()
  }

  /** Asking is part of this node's answer: an asker is installed and the switch is on. */
  predicate Offers(env: Env) { env.installed && env.Bounds().enabled }

  /** In every run of a node from an empty cache, an absence is established exactly when asking is not part of
    * the node's answers and its own walk, with nothing remembered, completed and named nobody but itself. */
  lemma AbsenceInEveryRunExactlyWhen(events: seq<CacheEvent>, caches: seq<Holders>, me: Option<string>, i: nat,
                                     part: PeersPart)
    requires CacheRun(events, caches, me) && i < |events| && events[i].Locates?
    requires part.env.Honours(part.budget, part.asker, me)
    ensures AbsenceAt(caches[i], events[i], part, me)
      <==> && !Offers(part.env) && Recalled(caches[i], events[i].content, events[i].at.now, events[i].at.nowSecs).None?
           && events[i].walk.Ok? && (forall r :: r in events[i].walk.value ==> Names(r, me))
  {
    EveryCacheIsClean(events, caches, me, i);
    AbsenceExactlyWhen(caches[i], events[i].content, events[i].walk, part.budget, part.env, me, part.claimed,
                       events[i].at);
  }

  /** Absence is non-interfering over whole runs: the cache evolves without the peers' part, so two runs of a
    * node with the same walks, the same forgettings and the same switch establish the same absences at every
    * locate, whatever peers sent, were picked, claimed, answered or failed to answer in either. (A forgetting is
    * itself what a download leaves when every peer failed it.) */
  lemma RunsEstablishTheSameAbsences(events: seq<CacheEvent>, caches: seq<Holders>, me: Option<string>,
                                     a: seq<PeersPart>, b: seq<PeersPart>)
    requires CacheRun(events, caches, me) && |a| == |b| == |events|
    requires forall i :: 0 <= i < |a| ==> a[i].env.Honours(a[i].budget, a[i].asker, me)
    requires forall i :: 0 <= i < |b| ==> b[i].env.Honours(b[i].budget, b[i].asker, me)
    requires forall i :: 0 <= i < |a| ==> Offers(a[i].env) == Offers(b[i].env)
    ensures forall i :: 0 <= i < |events| && events[i].Locates? ==>
      AbsenceAt(caches[i], events[i], a[i], me) == AbsenceAt(caches[i], events[i], b[i], me)
  {
    forall i | 0 <= i < |events| && events[i].Locates?
      ensures AbsenceAt(caches[i], events[i], a[i], me) == AbsenceAt(caches[i], events[i], b[i], me)
    {
      AbsenceInEveryRunExactlyWhen(events, caches, me, i, a[i]);
      AbsenceInEveryRunExactlyWhen(events, caches, me, i, b[i]);
    }
  }

  // ---------------------------------------------------------------------------------------------
  // The candidates
  // ---------------------------------------------------------------------------------------------

  const MAX_REDIRECT_PROVIDERS: nat := 8

  /** This node's own findings as they stand at the head of every answer. */
  function Mine(own: Slate, me: Option<string>): seq<Tagged> {
    Deduped(ExcludingSelfTagged(WithProvenance(own, FirstHand), me))
  }

  /** The candidates name no peer twice and never this node; this node's own findings lead, unchanged by
    * whatever hearsay follows them, and everything after them is hearsay. */
  lemma CandidatesLeadFirstHand(config: Config, own: Slate, answers: ForwardedAnswers, me: Option<string>)
    ensures var records := Combined(config, own, true, answers, me).records;
      && DistinctPeers(records) && (forall r :: r in records ==> !Names(r.record, me))
      && Mine(own, me) <= records
      && (forall i :: 0 <= i < |records| ==> (records[i].provenance == FirstHand <==> i < |Mine(own, me)|))
  {
    var theirs := WithProvenance(answers.records[..Min(config.hearsayCap, |answers.records|)], Hearsay);
    var all := ExcludingSelfTagged(WithProvenance(own, FirstHand) + theirs, me);
    ExcludingBoth(WithProvenance(own, FirstHand), theirs, me);
    DedupedMeans(all);
    DedupedExtends(ExcludingSelfTagged(WithProvenance(own, FirstHand), me), ExcludingSelfTagged(theirs, me));
    DedupedMeans(ExcludingSelfTagged(WithProvenance(own, FirstHand), me));
    forall r | r in Deduped(all) ensures !Names(r.record, me) {
      ExcludingSelfTaggedMeans(WithProvenance(own, FirstHand) + theirs, me, r);
    }
    forall i | 0 <= i < |Deduped(all)|
      ensures Deduped(all)[i].provenance == FirstHand <==> i < |Mine(own, me)|
    {
      var r := Deduped(all)[i];
      if i < |Mine(own, me)| {
        assert r == Mine(own, me)[i];
        ExcludingSelfTaggedMeans(WithProvenance(own, FirstHand), me, r);
        ProvenanceMeans(own, FirstHand, r);
      } else {
        ExcludingSelfTaggedMeans(theirs, me, r);
        ProvenanceMeans(answers.records[..Min(config.hearsayCap, |answers.records|)], Hearsay, r);
      }
    }
  }

  /** These places of a list of records, in order, are those of the first record of every holder but this node. */
  ghost predicate FirstMentions(heard: Slate, me: Option<string>, picks: seq<nat>) {
    && (forall j, k :: 0 <= j < k < |picks| ==> picks[j] < picks[k])
    && (forall k :: 0 <= k < |picks| ==> picks[k] < |heard|)
    && forall i :: 0 <= i < |heard| ==> (i in picks <==> IsFirstMention(heard, me, i))
  }

  predicate IsFirstMention(heard: Slate, me: Option<string>, i: nat)
    requires i < |heard|
  {
    me != Some(heard[i].peerId) && forall j :: 0 <= j < i ==> heard[j].peerId != heard[i].peerId
  }

  /** Everything one locate hears of: this node's own findings, then as much hearsay as the bound admits. */
  function Heard(config: Config, own: Slate, theirs: Slate): Slate {
    own + if |theirs| <= config.hearsayCap then theirs else theirs[..config.hearsayCap]
  }

  /** The candidates, exactly: of everything heard, the first record of every holder but this node, in the order it
    * was heard; first-hand exactly those that are this node's own findings, which therefore lead. */
  lemma CandidatesAreFirstMentions(config: Config, own: Slate, conclusive: bool, answers: ForwardedAnswers,
                                   me: Option<string>) returns (picks: seq<nat>)
    ensures var records := Combined(config, own, conclusive, answers, me).records;
      var heard := Heard(config, own, answers.records);
      && FirstMentions(heard, me, picks) && |records| == |picks|
      && (forall k :: 0 <= k < |picks| ==>
            && records[k].record == heard[picks[k]]
            && (records[k].provenance == FirstHand <==> picks[k] < |own|))
  {
    var merged := MergeAnswers(config, own, answers.records);
    var theirs := answers.records[..Min(config.hearsayCap, |answers.records|)];
    assert Heard(config, own, answers.records) == own + theirs;
    ProvenanceAt(own, FirstHand);
    ProvenanceAt(theirs, Hearsay);
    picks := KeptAreFirstMentions(merged, own + theirs, me);
  }

  lemma {:induction false} ProvenanceAt(records: Slate, provenance: Provenance)
    ensures forall i :: 0 <= i < |records| ==> WithProvenance(records, provenance)[i] == Tagged(records[i], provenance)
  {
    if records == [] {
    } else {
      ProvenanceAt(records[..|records| - 1], provenance);
    }
  }

  lemma {:induction false} KeptAreFirstMentions(records: seq<Tagged>, heard: Slate, me: Option<string>)
    returns (picks: seq<nat>)
    requires |heard| == |records| && forall i :: 0 <= i < |heard| ==> heard[i] == records[i].record
    ensures FirstMentions(heard, me, picks)
    ensures Selects(records, picks, Deduped(ExcludingSelfTagged(records, me)))
  {
    if records == [] {
      picks := [];
    } else {
      var n := |records| - 1;
      var before := KeptAreFirstMentions(records[..n], heard[..n], me);
      FirstMentionsOneMore(heard, me, before);
      SelectsOneMore(records, before, Deduped(ExcludingSelfTagged(records[..n], me)));
      KeptOneMore(records, me);
      FirstMentionTagged(records, heard, me, n);
      picks := if IsFirstMention(heard, me, n) then before + [n] else before;
    }
  }

  lemma FirstMentionsOneMore(heard: Slate, me: Option<string>, picks: seq<nat>)
    requires heard != [] && FirstMentions(heard[..|heard| - 1], me, picks)
    ensures var n := |heard| - 1;
      FirstMentions(heard, me, if IsFirstMention(heard, me, n) then picks + [n] else picks)
  {
    var n := |heard| - 1;
    forall i | 0 <= i < n ensures IsFirstMention(heard, me, i) <==> IsFirstMention(heard[..n], me, i) {
      assert heard[..n][i] == heard[i];
      assert forall j :: 0 <= j < i ==> heard[..n][j] == heard[j];
    }
  }

  lemma FirstMentionTagged(records: seq<Tagged>, heard: Slate, me: Option<string>, i: nat)
    requires |heard| == |records| && forall i :: 0 <= i < |heard| ==> heard[i] == records[i].record
    requires i < |heard|
    ensures IsFirstMention(heard, me, i)
      <==> !Names(records[i].record, me) && !Mentions(records[..i], records[i].record.peerId)
  {
    assert forall j :: 0 <= j < i ==> records[..i][j].record == heard[j];
  }

  /** One record more is kept exactly when it does not name this node and nothing before it names its holder. */
  lemma KeptOneMore(records: seq<Tagged>, me: Option<string>)
    requires records != []
    ensures var n := |records| - 1;
      var before, r := Deduped(ExcludingSelfTagged(records[..n], me)), records[n];
      Deduped(ExcludingSelfTagged(records, me))
        == if !Names(r.record, me) && !Mentions(records[..n], r.record.peerId) then before + [r] else before
  {
    var n := |records| - 1;
    var kept, peer := ExcludingSelfTagged(records[..n], me), records[n].record.peerId;
    if !Names(records[n].record, me) {
      assert (kept + [records[n]])[..|kept|] == kept;
      if i :| 0 <= i < n && records[..n][i].record.peerId == peer {
        ExcludingSelfTaggedMeans(records[..n], me, records[..n][i]);
      }
      if i :| 0 <= i < |kept| && kept[i].record.peerId == peer {
        ExcludingSelfTaggedMeans(records[..n], me, kept[i]);
      }
    } else {
      assert kept + [] == kept;
    }
  }

  /** Leaving this node out of a walk and then out of the candidates is leaving it out once. */
  lemma {:induction false} LeftOutOnce(records: Slate, me: Option<string>, provenance: Provenance)
    ensures ExcludingSelfTagged(WithProvenance(ExcludingSelf(records, me), provenance), me)
         == ExcludingSelfTagged(WithProvenance(records, provenance), me)
  {
    if records == [] {
    } else {
      var n := |records| - 1;
      LeftOutOnce(records[..n], me, provenance);
      var kept := ExcludingSelf(records[..n], me);
      assert records == records[..n] + [records[n]];
      TaggedOneMore(records[..n], records[n], me, provenance);
      if Names(records[n], me) {
        assert ExcludingSelf(records, me) == kept;
      } else {
        TaggedOneMore(kept, records[n], me, provenance);
        assert ExcludingSelf(records, me) == kept + [records[n]];
      }
    }
  }

  lemma TaggedOneMore(records: Slate, r: ProviderRecord, me: Option<string>, provenance: Provenance)
    ensures var before := ExcludingSelfTagged(WithProvenance(records, provenance), me);
      ExcludingSelfTagged(WithProvenance(records + [r], provenance), me)
        == if Names(r, me) then before else before + [Tagged(r, provenance)]
  {
    assert (records + [r])[..|records|] == records;
    var tagged := WithProvenance(records, provenance);
    var t := Tagged(r, provenance);
    assert WithProvenance(records + [r], provenance) == tagged + [t];
    assert (tagged + [t])[..|tagged|] == tagged;
    assert ExcludingSelfTagged(tagged, me) + [] == ExcludingSelfTagged(tagged, me);
  }

  /** One whole search, exactly: what it hears is the remembered slate where one is recalled and otherwise its own
    * walk, followed by the admitted hearsay; what it finds is the first record of every holder in it but this node;
    * and it may conclude from it when its own part completed and asking was not part of the answer. */
  lemma WhatASearchFinds(holders: Holders, content: ContentId, walk: Result<Slate>, budget: HopBudget, env: Env,
                         me: Option<string>, claimed: bool, at: Instants) returns (picks: seq<nat>)
    ensures var cached := Recalled(holders, content, at.now, at.nowSecs);
      var answers := Forwarded(budget, env, claimed, at.asked).answers;
      var located := Located(env.Bounds(), OwnSearch(cached, walk, me), answers, me);
      var own := if cached.Some? then cached.value else if walk.Ok? then walk.value else [];
      var heard := Heard(env.Bounds(), own, answers.records);
      && FirstMentions(heard, me, picks) && |located.records| == |picks|
      && (forall k :: 0 <= k < |picks| ==>
            && located.records[k].record == heard[picks[k]]
            && (located.records[k].provenance == FirstHand <==> picks[k] < |own|))
      && (located.conclusive
          <==> (cached.Some? || walk.Ok?) && (!env.installed || env.decision == Refuse(Disabled)))
  {
    var cached := Recalled(holders, content, at.now, at.nowSecs);
    var answers := Forwarded(budget, env, claimed, at.asked).answers;
    var own := if cached.Some? then cached.value else if walk.Ok? then walk.value else [];
    ConclusiveExactlyWhenNeverOffered(budget, env, claimed, at.asked);
    picks := CandidatesAreFirstMentions(env.Bounds(), own, true, answers, me);
    if cached.None? && walk.Ok? {
      LeftOutOnce(walk.value, me, FirstHand);
      SameCandidates(env.Bounds(), ExcludingSelf(walk.value, me), walk.value, answers, me);
    }
  }

  lemma SameCandidates(config: Config, own: Slate, other: Slate, answers: ForwardedAnswers, me: Option<string>)
    requires ExcludingSelfTagged(WithProvenance(own, FirstHand), me)
          == ExcludingSelfTagged(WithProvenance(other, FirstHand), me)
    ensures Combined(config, own, true, answers, me) == Combined(config, other, true, answers, me)
  {
    var theirs := WithProvenance(answers.records[..Min(config.hearsayCap, |answers.records|)], Hearsay);
    ExcludingBoth(WithProvenance(own, FirstHand), theirs, me);
    ExcludingBoth(WithProvenance(other, FirstHand), theirs, me);
  }

  /** The answer on the wire: the first few candidates. */
  function Truncated(records: seq<Tagged>): seq<Tagged> { records[..Min(MAX_REDIRECT_PROVIDERS, |records|)] }

  /** Truncation is non-displacing: a first-hand holder is left out exactly when there are more first-hand
    * holders than the cap, and then nothing but first-hand holders is named. */
  lemma TruncationNeverDisplaces(config: Config, own: Slate, answers: ForwardedAnswers, me: Option<string>)
    ensures var records := Combined(config, own, true, answers, me).records;
      && ((exists r :: r in Mine(own, me) && r !in Truncated(records)) <==> |Mine(own, me)| > MAX_REDIRECT_PROVIDERS)
      && (|Mine(own, me)| >= MAX_REDIRECT_PROVIDERS ==> Truncated(records) == Mine(own, me)[..MAX_REDIRECT_PROVIDERS])
  {
    CandidatesLeadFirstHand(config, own, answers, me);
    var records, mine := Combined(config, own, true, answers, me).records, Mine(own, me);
    if |mine| > MAX_REDIRECT_PROVIDERS {
      assert mine[MAX_REDIRECT_PROVIDERS] == records[MAX_REDIRECT_PROVIDERS];
      assert mine[MAX_REDIRECT_PROVIDERS] in mine && mine[MAX_REDIRECT_PROVIDERS] !in Truncated(records);
    } else {
      forall r | r in mine ensures r in Truncated(records) {
        var i :| 0 <= i < |mine| && mine[i] == r;
        assert Truncated(records)[i] == r;
      }
    }
  }

  // ---------------------------------------------------------------------------------------------
  // Spellings
  // ---------------------------------------------------------------------------------------------

  /** Every identity among these records is spelled one way. */
  ghost predicate OneSpelling(records: seq<Tagged>) {
    forall i, j :: 0 <= i < |records| && 0 <= j < |records| ==>
      (AsciiLower(records[i].record.peerId) == AsciiLower(records[j].record.peerId) ==>
         records[i].record.peerId == records[j].record.peerId)
  }

  ghost predicate DistinctIdentities(records: seq<Tagged>) {
    forall i, j :: 0 <= i < j < |records| ==>
      AsciiLower(records[i].record.peerId) != AsciiLower(records[j].record.peerId)
  }

  /** Deduplication compares texts, while two casings of one id are one identity: no identity is named twice
    * exactly when the records it is given spell each identity one way. */
  lemma OneEntryPerIdentityExactlyWhen(records: seq<Tagged>)
    ensures DistinctIdentities(Deduped(records)) <==> OneSpelling(records)
  {
    var d := Deduped(records);
    DedupedMeans(records);
    if OneSpelling(records) {
      forall i, j | 0 <= i < j < |d| ensures AsciiLower(d[i].record.peerId) != AsciiLower(d[j].record.peerId) {
        assert d[i] in records && d[j] in records;
        assert d[i].record.peerId != d[j].record.peerId;
      }
    }
    if DistinctIdentities(d) {
      forall i, j | 0 <= i < |records| && 0 <= j < |records| &&
        AsciiLower(records[i].record.peerId) == AsciiLower(records[j].record.peerId)
        ensures records[i].record.peerId == records[j].record.peerId
      {
        assert Mentions(records, records[i].record.peerId) && Mentions(records, records[j].record.peerId);
        var x :| 0 <= x < |d| && d[x].record.peerId == records[i].record.peerId;
        var y :| 0 <= y < |d| && d[y].record.peerId == records[j].record.peerId;
      }
    }
  }

  /** Likewise this node is excluded as an identity exactly when no record spells it another way. */
  lemma SelfIsExcludedExactlyWhen(records: seq<Tagged>, me: string)
    ensures (forall r :: r in ExcludingSelfTagged(records, Some(me)) ==> AsciiLower(r.record.peerId) != AsciiLower(me))
        <==> (forall r :: r in records && AsciiLower(r.record.peerId) == AsciiLower(me) ==> r.record.peerId == me)
  {
    forall r ensures r in ExcludingSelfTagged(records, Some(me)) <==> r in records && r.record.peerId != me {
      ExcludingSelfTaggedMeans(records, Some(me), r);
    }
  }

  /** The smallest failing answer: one identity in two casings takes two places. */
  lemma TwoCasingsTakeTwoPlaces(a: Tagged, b: Tagged)
    requires a.record.peerId == "a" && b.record.peerId == "A"
    ensures Deduped([a, b]) == [a, b] && !DistinctIdentities(Deduped([a, b]))
  {
    AsciiLowerAt("a", 0);
    AsciiLowerAt("A", 0);
    assert AsciiLower("a") == AsciiLower("A");
    assert [a, b][..1] == [a];
    assert !Mentions([a], "A");
    assert [a][..0] == [];
    assert Deduped([a]) == [a];
  }
}
