/** The inbound-demand ledger: a bounded map of demanded stores with a recency index beside it.
  *
  * The class is the code's two maps and clock, kept against a ghost `history` of every demand ever
  * recorded. What a ledger holds is then defined from the history alone, with no reference to how the
  * maps are maintained. */
module InboundDemand {
  import opened Common

  const U32_MAX: nat := 0xFFFF_FFFF

  datatype CacheTier = Tier0Precache | Tier1Demand

  datatype DemandRecord = DemandRecord(count: nat, tier: CacheTier)

  datatype Entry = Entry(record: DemandRecord, tick: nat)

  // ---------------------------------------------------------------------------------------------
  // What a history of demands means
  // ---------------------------------------------------------------------------------------------

  /** The distinct ids demanded after the last demand for `id`; all of them if there was none. */
  function Since(h: seq<string>, id: string): set<string> {
    if h == [] || h[|h| - 1] == id then {} else Since(h[..|h| - 1], id) + {h[|h| - 1]}
  }

  /** One past the position of the last demand for `id`, zero if there was none. */
  function LastTick(h: seq<string>, id: string): nat {
    if h == [] then 0 else if h[|h| - 1] == id then |h| else LastTick(h[..|h| - 1], id)
  }

  /** `id` is among the `cap` most recently demanded distinct ids of the history. */
  predicate AmongMostRecent(h: seq<string>, cap: nat, id: string) {
    id in h && |Since(h, id)| < cap
  }

  ghost function LiveSet(h: seq<string>, cap: nat): set<string> {
    set id | id in h && AmongMostRecent(h, cap, id)
  }

  /** Demands for `id` since it last entered the most-recent set. */
  function DemandsSinceEntry(h: seq<string>, cap: nat, id: string): nat {
    if h == [] then 0 else
      var before := h[..|h| - 1];
      if h[|h| - 1] != id then DemandsSinceEntry(before, cap, id)
      else if AmongMostRecent(before, cap, id) then DemandsSinceEntry(before, cap, id) + 1
      else 1
  }

  lemma {:induction false} SinceFacts(h: seq<string>, id: string)
    ensures id !in Since(h, id)
    ensures forall x :: x in Since(h, id) ==> x in h && LastTick(h, x) > LastTick(h, id)
    ensures forall x :: x in h && x !in Since(h, id) ==> LastTick(h, x) <= LastTick(h, id)
    ensures LastTick(h, id) <= |h| && (LastTick(h, id) == 0 <==> id !in h)
  {
    if h == [] {
    } else {
      var n := |h| - 1;
      SinceFacts(h[..n], id);
      SinceFacts(h[..n], h[n]);
      forall x | x in h ensures x == h[n] || x in h[..n] {}
      forall x | x in h[..n] { TickFacts(h[..n], x); }
    }
  }

  lemma {:induction false} TickFacts(h: seq<string>, x: string)
    ensures LastTick(h, x) <= |h| && (LastTick(h, x) == 0 <==> x !in h)
    ensures LastTick(h, x) > 0 ==> h[LastTick(h, x) - 1] == x
  {
    if h == [] {
    } else {
      TickFacts(h[..|h| - 1], x);
    }
  }

  /** Two ids with the same last demand are one id. */
  lemma TicksAreDistinct(h: seq<string>, x: string, y: string)
    requires x in h && LastTick(h, x) == LastTick(h, y)
    ensures x == y
  {
    TickFacts(h, x);
    TickFacts(h, y);
  }

  /** What came after `y`, with `y` itself, came after anything demanded before `y`. */
  lemma {:induction false} SinceNests(h: seq<string>, x: string, y: string)
    requires y in Since(h, x)
    ensures Since(h, y) + {y} <= Since(h, x)
    ensures |Since(h, y)| < |Since(h, x)|
  {
    var n := |h| - 1;
    if h[n] == y {
    } else {
      SinceNests(h[..n], x, y);
    }
    SinceFacts(h, y);
    SubsetSize(Since(h, y) + {y}, Since(h, x));
    assert |Since(h, y) + {y}| == |Since(h, y)| + 1;
  }

  lemma SinceOneMore(h: seq<string>, id: string, x: string)
    ensures Since(h + [id], x) == if x == id then {} else Since(h, x) + {id}
    ensures LastTick(h + [id], x) == if x == id then |h| + 1 else LastTick(h, x)
  {
    assert (h + [id])[..|h|] == h;
  }

  // ---------------------------------------------------------------------------------------------
  // How the most-recent set moves with one more demand
  // ---------------------------------------------------------------------------------------------

  /** Everything demanded after a live id is live too. */
  lemma LaterIsLive(h: seq<string>, cap: nat, x: string, y: string)
    requires AmongMostRecent(h, cap, x) && y in Since(h, x)
    ensures AmongMostRecent(h, cap, y)
  {
    SinceFacts(h, x);
    SinceNests(h, x, y);
  }

  lemma LaterIsInLiveSet(h: seq<string>, cap: nat, x: string)
    requires AmongMostRecent(h, cap, x)
    ensures Since(h, x) + {x} <= LiveSet(h, cap)
    ensures |Since(h, x)| + 1 <= |LiveSet(h, cap)|
  {
    forall y | y in Since(h, x) ensures y in LiveSet(h, cap) {
      LaterIsLive(h, cap, x, y);
    }
    SinceFacts(h, x);
    SubsetSize(Since(h, x) + {x}, LiveSet(h, cap));
    assert |Since(h, x) + {x}| == |Since(h, x)| + 1;
  }

  /** `v` is the live id demanded longest ago. */
  predicate IsOldestLive(h: seq<string>, cap: nat, v: string) {
    && AmongMostRecent(h, cap, v)
    && forall x :: x in h && AmongMostRecent(h, cap, x) ==> LastTick(h, v) <= LastTick(h, x)
  }

  /** The oldest live id has every other one after it. */
  lemma OldestHasTheRestAfterIt(h: seq<string>, cap: nat, v: string)
    requires IsOldestLive(h, cap, v)
    ensures Since(h, v) == LiveSet(h, cap) - {v}
    ensures |LiveSet(h, cap)| == |Since(h, v)| + 1 <= cap
  {
    SinceFacts(h, v);
    LaterIsInLiveSet(h, cap, v);
    forall x | x in LiveSet(h, cap) && x != v ensures x in Since(h, v) {
      if x !in Since(h, v) {
        TicksAreDistinct(h, x, v);
      }
    }
    assert LiveSet(h, cap) == Since(h, v) + {v};
  }

  lemma ExistsOldestLive(h: seq<string>, cap: nat) returns (v: string)
    requires LiveSet(h, cap) != {}
    ensures IsOldestLive(h, cap, v)
  {
    v :| v in LiveSet(h, cap);
    var rest := LiveSet(h, cap) - {v};
    while rest != {}
      invariant v in LiveSet(h, cap) && rest <= LiveSet(h, cap)
      invariant forall x :: x in LiveSet(h, cap) - rest ==> LastTick(h, v) <= LastTick(h, x)
      decreases rest
    {
      var x :| x in rest;
      if LastTick(h, x) < LastTick(h, v) { v := x; }
      rest := rest - {x};
    }
  }

  /** The ledger never holds more than its capacity. */
  lemma LiveSetIsBounded(h: seq<string>, cap: nat)
    ensures |LiveSet(h, cap)| <= cap
  {
    if LiveSet(h, cap) != {} {
      var v := ExistsOldestLive(h, cap);
      OldestHasTheRestAfterIt(h, cap, v);
    }
  }

  lemma LiveAfter(h: seq<string>, cap: nat, id: string, x: string)
    requires cap >= 1
    ensures AmongMostRecent(h + [id], cap, x)
       <==> x == id || (AmongMostRecent(h, cap, x) && (id in Since(h, x) || |Since(h, x)| + 1 < cap))
  {
    SinceOneMore(h, id, x);
    if x != id {
      assert x in h + [id] <==> x in h;
      if id in Since(h, x) {
        assert Since(h, x) + {id} == Since(h, x);
      }
    }
  }

  /** A demand for a live id moves nothing in or out. */
  lemma RedemandKeepsTheSet(h: seq<string>, cap: nat, id: string, x: string)
    requires cap >= 1 && AmongMostRecent(h, cap, id)
    ensures AmongMostRecent(h + [id], cap, x) <==> AmongMostRecent(h, cap, x)
  {
    LiveAfter(h, cap, id, x);
    if AmongMostRecent(h, cap, x) && x != id && id !in Since(h, x) {
      SinceFacts(h, x);
      SinceFacts(h, id);
      if x !in Since(h, id) {
        TicksAreDistinct(h, x, id);
      }
      SinceNests(h, id, x);
    }
  }

  /** A new id joins; if the ledger is at capacity exactly the oldest live id leaves, else nobody does. */
  lemma NewcomerDisplacesTheOldest(h: seq<string>, cap: nat, id: string, x: string)
    requires cap >= 1 && !AmongMostRecent(h, cap, id)
    ensures AmongMostRecent(h + [id], cap, x)
       <==> x == id || (AmongMostRecent(h, cap, x) && (|LiveSet(h, cap)| < cap || !IsOldestLive(h, cap, x)))
  {
    LiveAfter(h, cap, id, x);
    if x != id && AmongMostRecent(h, cap, x) {
      if id in Since(h, x) {
        LaterIsLive(h, cap, x, id);
      }
      LaterIsInLiveSet(h, cap, x);
      LiveSetIsBounded(h, cap);
      if |LiveSet(h, cap)| == cap {
        if IsOldestLive(h, cap, x) {
          OldestHasTheRestAfterIt(h, cap, x);
        } else {
          var v := ExistsOldestLive(h, cap);
          OldestHasTheRestAfterIt(h, cap, v);
          SinceNests(h, v, x);
        }
      }
    }
  }

  // ---------------------------------------------------------------------------------------------
  // The two maps
  // ---------------------------------------------------------------------------------------------

  function SaturatingIncrement(n: nat): nat { if n >= U32_MAX then U32_MAX else n + 1 }

  /** The entry a live id must carry after history `h`. */
  function Expected(h: seq<string>, cap: nat, id: string): Entry {
    Entry(DemandRecord(Min(U32_MAX, DemandsSinceEntry(h, cap, id)), Tier1Demand), LastTick(h, id))
  }

  /** The map holds exactly the most recent ids, each with its tick and its count. */
  ghost predicate Faithful(m: map<string, Entry>, h: seq<string>, cap: nat) {
    forall id :: (id in m <==> AmongMostRecent(h, cap, id)) && (id in m ==> m[id] == Expected(h, cap, id))
  }

  /** The recency index is the map read backwards, tick to id. */
  ghost predicate Inverse(m: map<string, Entry>, recency: map<nat, string>) {
    && (forall id :: id in m ==> m[id].tick in recency && recency[m[id].tick] == id)
    && (forall t :: t in recency ==> recency[t] in m && m[recency[t]].tick == t)
  }

  lemma InverseRefresh(m: map<string, Entry>, recency: map<nat, string>, id: string, e: Entry)
    requires Inverse(m, recency) && id in m && e.tick !in recency
    ensures Inverse(m[id := e], (recency - {m[id].tick})[e.tick := id])
  {
  }

  lemma InverseEvict(m: map<string, Entry>, recency: map<nat, string>, t: nat)
    requires Inverse(m, recency) && t in recency
    ensures Inverse(m - {recency[t]}, recency - {t})
  {
  }

  lemma InverseInsert(m: map<string, Entry>, recency: map<nat, string>, id: string, e: Entry)
    requires Inverse(m, recency) && id !in m && e.tick !in recency
    ensures Inverse(m[id := e], recency[e.tick := id])
  {
  }

  /** Every tick in the index lies in the past. */
  lemma TicksArePast(m: map<string, Entry>, recency: map<nat, string>, h: seq<string>, cap: nat, t: nat)
    requires Faithful(m, h, cap) && Inverse(m, recency) && t in recency
    ensures t <= |h|
  {
    TickFacts(h, recency[t]);
  }

  lemma AllTicksArePast(m: map<string, Entry>, recency: map<nat, string>, h: seq<string>, cap: nat)
    requires Faithful(m, h, cap) && Inverse(m, recency)
    ensures forall t :: t in recency ==> t <= |h|
  {
    forall t | t in recency ensures t <= |h| { TicksArePast(m, recency, h, cap, t); }
  }

  lemma ExpectedOneMore(h: seq<string>, cap: nat, id: string, x: string)
    ensures x != id ==> Expected(h + [id], cap, x) == Expected(h, cap, x)
    ensures Expected(h + [id], cap, id).tick == |h| + 1
    ensures AmongMostRecent(h, cap, id) ==>
      Expected(h + [id], cap, id).record.count == SaturatingIncrement(Expected(h, cap, id).record.count)
    ensures cap >= 1 && !AmongMostRecent(h, cap, id) ==> Expected(h + [id], cap, id).record.count == 1
  {
    assert (h + [id])[..|h|] == h;
  }

  lemma FaithfulRefresh(m: map<string, Entry>, h: seq<string>, cap: nat, id: string)
    requires cap >= 1 && Faithful(m, h, cap) && id in m
    ensures Faithful(m[id := Entry(DemandRecord(SaturatingIncrement(m[id].record.count), Tier1Demand), |h| + 1)],
                     h + [id], cap)
  {
    forall x
      ensures AmongMostRecent(h + [id], cap, x) <==> AmongMostRecent(h, cap, x)
      ensures x != id ==> Expected(h + [id], cap, x) == Expected(h, cap, x)
    {
      RedemandKeepsTheSet(h, cap, id, x);
      ExpectedOneMore(h, cap, id, x);
    }
    ExpectedOneMore(h, cap, id, id);
  }

  /** The map with room made for a newcomer: the oldest live id goes when the ledger is at capacity. */
  ghost predicate RoomMade(m: map<string, Entry>, kept: map<string, Entry>, h: seq<string>, cap: nat) {
    forall x :: if x in m && (|m| < cap || !IsOldestLive(h, cap, x)) then x in kept && kept[x] == m[x] else x !in kept
  }

  lemma FaithfulNewcomer(m: map<string, Entry>, kept: map<string, Entry>, h: seq<string>, cap: nat, id: string)
    requires cap >= 1 && Faithful(m, h, cap) && id !in m && RoomMade(m, kept, h, cap)
    ensures Faithful(kept[id := Entry(DemandRecord(1, Tier1Demand), |h| + 1)], h + [id], cap)
  {
    forall x
      ensures AmongMostRecent(h + [id], cap, x) <==> x == id || x in kept
      ensures x != id ==> Expected(h + [id], cap, x) == Expected(h, cap, x)
    {
      WhoIsKept(m, kept, h, cap, id, x);
      ExpectedOneMore(h, cap, id, x);
    }
    ExpectedOneMore(h, cap, id, id);
  }

  lemma WhoIsKept(m: map<string, Entry>, kept: map<string, Entry>, h: seq<string>, cap: nat, id: string, x: string)
    requires cap >= 1 && Faithful(m, h, cap) && id !in m && RoomMade(m, kept, h, cap)
    ensures AmongMostRecent(h + [id], cap, x) <==> x == id || x in kept
  {
    SizeIsLiveSize(m, h, cap);
    NewcomerDisplacesTheOldest(h, cap, id, x);
  }

  lemma SizeIsLiveSize(m: map<string, Entry>, h: seq<string>, cap: nat)
    requires Faithful(m, h, cap)
    ensures |m| == |LiveSet(h, cap)| <= cap
  {
    assert m.Keys == LiveSet(h, cap);
    assert |m| == |m.Keys|;
    LiveSetIsBounded(h, cap);
  }

  /** The id at the smallest tick is the oldest live one. */
  lemma SmallestTickIsOldest(m: map<string, Entry>, recency: map<nat, string>, h: seq<string>, cap: nat, t: nat,
                             x: string)
    requires Faithful(m, h, cap) && Inverse(m, recency)
    requires t in recency && forall u :: u in recency ==> t <= u
    ensures IsOldestLive(h, cap, x) <==> x == recency[t]
  {
    var v := recency[t];
    assert m[v].tick == t == LastTick(h, v);
    forall y | y in h && AmongMostRecent(h, cap, y) ensures LastTick(h, v) <= LastTick(h, y) {
      assert m[y].tick in recency;
    }
    if IsOldestLive(h, cap, x) {
      TicksAreDistinct(h, x, v);
    }
  }

  // ---------------------------------------------------------------------------------------------
  // The ledger
  // ---------------------------------------------------------------------------------------------

  class InboundDemand {
    const cap: nat
    var entries: map<string, Entry>
    var recency: map<nat, string>
    var clock: nat
    ghost var history: seq<string>

    ghost predicate Valid()
      reads this
    {
      cap >= 1 && clock == |history| && Faithful(entries, history, cap) && Inverse(entries, recency)
    }

    constructor WithCapacity(cap: nat)
      ensures Valid() && history == [] && this.cap == if cap < 1 then 1 else cap
    {
      this.cap := if cap < 1 then 1 else cap;
      entries, recency, clock, history := map[], map[], 0, [];
    }

    /** Record one demand. */
    method Record(id: string) returns (r: DemandRecord)
      requires Valid()
      modifies this
      ensures Valid() && history == old(history) + [id]
      ensures r == Expected(history, cap, id).record
    {
      AllTicksArePast(entries, recency, history, cap);
      clock := clock + 1;
      if id in entries {
        r := Refresh(id, clock);
      } else {
        ghost var before := entries;
        if |entries| >= cap {
          EvictOldest();
        }
        FaithfulNewcomer(before, entries, history, cap, id);
        r := Insert(id, clock);
      }
      history := history + [id];
    }

    /** Re-demand: move the recency slot to the new tick and bump the count. */
    method Refresh(id: string, tick: nat) returns (r: DemandRecord)
      requires cap >= 1 && Faithful(entries, history, cap) && Inverse(entries, recency)
      requires id in entries && tick == |history| + 1 && tick !in recency
      modifies this`entries, this`recency
      ensures Faithful(entries, history + [id], cap) && Inverse(entries, recency)
      ensures r == Expected(history + [id], cap, id).record
    {
      FaithfulRefresh(entries, history, cap, id);
      var entry := entries[id];
      r := DemandRecord(SaturatingIncrement(entry.record.count), Tier1Demand);
      InverseRefresh(entries, recency, id, Entry(r, tick));
      entries := entries[id := Entry(r, tick)];
      recency := (recency - {entry.tick})[tick := id];
    }

    /** Drop the entry at the smallest tick. */
    method EvictOldest()
      requires cap >= 1 && |entries| >= cap
      requires Faithful(entries, history, cap) && Inverse(entries, recency)
      modifies this`entries, this`recency
      ensures RoomMade(old(entries), entries, history, cap) && Inverse(entries, recency)
      ensures recency.Keys <= old(recency.Keys)
    {
      SizeIsLiveSize(entries, history, cap);
      ghost var some: string :| some in entries;
      assert entries[some].tick in recency;
      var victim := SmallestTick();
      forall x ensures IsOldestLive(history, cap, x) <==> x == recency[victim] {
        SmallestTickIsOldest(entries, recency, history, cap, victim, x);
      }
      InverseEvict(entries, recency, victim);
      entries, recency := entries - {recency[victim]}, recency - {victim};
    }

    /** The first key of the ordered recency index. */
    method SmallestTick() returns (t: nat)
      requires recency != map[]
      ensures t in recency && forall u :: u in recency ==> t <= u
    {
      t :| t in recency;
      var rest := recency.Keys - {t};
      while rest != {}
        invariant t in recency && rest <= recency.Keys
        invariant forall u :: u in recency && u !in rest ==> t <= u
        decreases rest
      {
        var u :| u in rest;
        if u < t { t := u; }
        rest := rest - {u};
      }
    }

    method Insert(id: string, tick: nat) returns (r: DemandRecord)
      requires Inverse(entries, recency) && id !in entries && tick !in recency
      modifies this`entries, this`recency
      ensures r == DemandRecord(1, Tier1Demand) && entries == old(entries)[id := Entry(r, tick)]
      ensures Inverse(entries, recency)
    {
      r := DemandRecord(1, Tier1Demand);
      InverseInsert(entries, recency, id, Entry(r, tick));
      entries, recency := entries[id := Entry(r, tick)], recency[tick := id];
    }

    method Count(id: string) returns (n: nat)
      requires Valid()
      ensures n == if AmongMostRecent(history, cap, id) then Min(U32_MAX, DemandsSinceEntry(history, cap, id)) else 0
    {
      n := if id in entries then entries[id].record.count else 0;
    }

    method Tier(id: string) returns (t: Option<CacheTier>)
      requires Valid()
      ensures t == if AmongMostRecent(history, cap, id) then Some(Tier1Demand) else None
    {
      t := if id in entries then Some(entries[id].record.tier) else None;
    }

    method EntryCount() returns (n: nat)
      requires Valid()
      ensures n == |LiveSet(history, cap)| <= cap
    {
      SizeIsLiveSize(entries, history, cap);
      n := |entries|;
    }
  }

  // ---------------------------------------------------------------------------------------------
  // What the count counts
  // ---------------------------------------------------------------------------------------------

  /** Occurrences of `id` among the demands from position `from` on. */
  function DemandsFrom(h: seq<string>, from: nat, id: string): nat
    requires from <= |h|
  {
    if |h| == from then 0 else DemandsFrom(h[..|h| - 1], from, id) + (if h[|h| - 1] == id then 1 else 0)
  }

  /** `id` entered the ledger at position `p` and has been in it ever since. */
  predicate HeldSince(h: seq<string>, cap: nat, id: string, p: nat)
    requires p < |h|
  {
    && h[p] == id && !AmongMostRecent(h[..p], cap, id)
    && forall k :: p < k <= |h| ==> AmongMostRecent(h[..k], cap, id)
  }

  /** The count of a live id is the number of demands for it since the demand that last let it in; an
    * eviction in between starts the count again. */
  lemma {:induction false} CountIsDemandsSinceEntry(h: seq<string>, cap: nat, id: string) returns (p: nat)
    requires cap >= 1 && AmongMostRecent(h, cap, id)
    ensures p < |h| && HeldSince(h, cap, id, p)
    ensures DemandsSinceEntry(h, cap, id) == DemandsFrom(h, p, id)
  {
    var n := |h| - 1;
    LiveAfter(h[..n], cap, h[n], id);
    assert h == h[..n] + [h[n]];
    if AmongMostRecent(h[..n], cap, id) {
      p := CountIsDemandsSinceEntry(h[..n], cap, id);
      forall k | p < k <= |h| ensures AmongMostRecent(h[..k], cap, id) {
        if k <= n { assert h[..n][..k] == h[..k]; } else { assert h[..k] == h; }
      }
      assert h[..n][..p] == h[..p];
    } else {
      p := n;
      assert h[..|h|] == h;
    }
  }

  // ---------------------------------------------------------------------------------------------
  // The ledger, on the positions of the history alone
  // ---------------------------------------------------------------------------------------------

  /** The last demand for `id` is at position `p`. */
  predicate LastAt(h: seq<string>, id: string, p: nat) {
    p < |h| && h[p] == id && forall k :: p < k < |h| ==> h[k] != id
  }

  /** The ids demanded from a position on. */
  ghost function DemandedFrom(h: seq<string>, from: nat): set<string>
    requires from <= |h|
  {
    set k | from <= k < |h| :: h[k]
  }

  lemma {:induction false} LastPosition(h: seq<string>, id: string) returns (p: nat)
    requires id in h
    ensures LastAt(h, id, p) && LastTick(h, id) == p + 1 && Since(h, id) == DemandedFrom(h, p + 1)
  {
    var n := |h| - 1;
    if h[n] == id {
      p := n;
      assert DemandedFrom(h, n + 1) == {};
    } else {
      p := LastPosition(h[..n], id);
      assert forall k :: 0 <= k < n ==> h[..n][k] == h[k];
      assert DemandedFrom(h, p + 1) == DemandedFrom(h[..n], p + 1) + {h[n]};
    }
  }

  /** Who is in the ledger, exactly: an id whose last demand has fewer than a capacity of distinct ids after it. */
  lemma LiveExactlyWhen(h: seq<string>, cap: nat, id: string)
    ensures AmongMostRecent(h, cap, id) <==> exists p: nat :: LastAt(h, id, p) && |DemandedFrom(h, p + 1)| < cap
  {
    if id in h {
      var p := LastPosition(h, id);
      forall q: nat | LastAt(h, id, q) ensures q == p {
        assert h[q] == id && h[p] == id;
      }
    } else {
      assert forall q :: 0 <= q < |h| ==> h[q] in h;
    }
  }

  /** The positions of demands for `id` from one position on. */
  ghost function DemandsOf(h: seq<string>, id: string, from: nat): set<nat>
    requires from <= |h|
  {
    set k: nat | from <= k < |h| && h[k] == id
  }

  lemma {:induction false} DemandsFromAre(h: seq<string>, from: nat, id: string)
    requires from <= |h|
    ensures DemandsFrom(h, from, id) == |DemandsOf(h, id, from)|
  {
    if |h| == from {
      assert DemandsOf(h, id, from) == {};
    } else {
      var n := |h| - 1;
      DemandsFromAre(h[..n], from, id);
      assert forall k :: 0 <= k < n ==> h[..n][k] == h[k];
      assert DemandsOf(h, id, from)
          == if h[n] == id then DemandsOf(h[..n], id, from) + {n} else DemandsOf(h[..n], id, from);
    }
  }

  /** What a live id carries, exactly: its count is how many demands there have been for it since the one that let it
    * in, saturating, and its tick is one past the position of the last of them. */
  lemma ALiveEntryCarries(h: seq<string>, cap: nat, id: string) returns (entered: nat, last: nat)
    requires cap >= 1 && AmongMostRecent(h, cap, id)
    ensures entered < |h| && HeldSince(h, cap, id, entered) && LastAt(h, id, last)
    ensures Expected(h, cap, id)
         == Entry(DemandRecord(if |DemandsOf(h, id, entered)| <= 0xFFFF_FFFF then |DemandsOf(h, id, entered)|
                               else 0xFFFF_FFFF, Tier1Demand), last + 1)
  {
    entered := CountIsDemandsSinceEntry(h, cap, id);
    DemandsFromAre(h, entered, id);
    last := LastPosition(h, id);
  }
}
