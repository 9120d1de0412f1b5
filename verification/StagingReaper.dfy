/** The byte ceiling on abandoned whole-capsule downloads: oldest first, sparing every protected pull. */
module StagingReaper {
  import opened Common
  import S = StableSort

  datatype Meta = Meta(modified: Option<nat>, len: nat)

  /** One directory entry; its metadata may be unreadable. */
  datatype DirEntry = DirEntry(name: string, meta: Option<Meta>)

  datatype Staged = Staged(name: string, modified: nat, len: nat)

  const STAGING: string := ".download.tmp"

  predicate IsStaging(name: string) { |name| >= |STAGING| && name[|name| - |STAGING|..] == STAGING }

  /** The download state kept beside a staging file. */
  function StateBeside(name: string): string { name + ".state" }

  lemma StateIsNotStaging(name: string)
    ensures !IsStaging(StateBeside(name))
  {
    var s := StateBeside(name);
    if |s| >= |STAGING| {
      assert s[|s| - |STAGING|..][|STAGING| - 1] == s[|s| - 1] == 'e';
    }
  }

  /** The staging files of a listing that could be measured. */
  function Measured(listing: seq<DirEntry>): seq<Staged> {
    if listing == [] then [] else
      var e := listing[|listing| - 1];
      Measured(listing[..|listing| - 1])
        + (if IsStaging(e.name) && e.meta.Some?
           then var modified := e.meta.value.modified;
             [Staged(e.name, if modified.Some? then modified.value else 0, e.meta.value.len)]
           else [])
  }

  function Bytes(s: seq<Staged>): nat { if s == [] then 0 else Bytes(s[..|s| - 1]) + s[|s| - 1].len }

  function Age(s: Staged): int { s.modified }

  /** The sort by age. */
  function OldestFirst(s: seq<Staged>): seq<Staged> { S.Sorted(s, Age) }

  /** What the registry and the operating system answer while a sweep runs. */
  datatype World = World(isProtected: string -> bool, unlinks: string -> bool) {
    predicate Removable(s: Staged) { !isProtected(s.name) && unlinks(s.name) }
  }

  /** The loop's record: what it removed, in order, and the bytes it still counts. */
  datatype Sweep = Sweep(victims: seq<Staged>, total: nat)

  function Visit(sweep: Sweep, s: Staged, cap: nat, w: World): Sweep {
    if sweep.total <= cap || !w.Removable(s) then sweep
    else Sweep(sweep.victims + [s], SaturatingSub(sweep.total, s.len))
  }

  function Swept(staging: seq<Staged>, cap: nat, total: nat, w: World): Sweep {
    if staging == [] then Sweep([], total)
    else Visit(Swept(staging[..|staging| - 1], cap, total, w), staging[|staging| - 1], cap, w)
  }

  /** Everything a sweep takes off the disk: its victims, and the states it managed to unlink beside them. */
  function Discarded(victims: seq<Staged>, w: World): set<string> {
    if victims == [] then {} else
      var name := victims[|victims| - 1].name;
      Discarded(victims[..|victims| - 1], w) + {name}
        + (if w.unlinks(StateBeside(name)) then {StateBeside(name)} else {})
  }

  /** What sweeping this listing does. */
  function Plan(listing: seq<DirEntry>, cap: nat, w: World): Sweep {
    var staging := Measured(listing);
    Swept(OldestFirst(staging), cap, Bytes(staging), w)
  }

  class StagingDir {
    /** Every file of the directory and its length. */
    var files: map<string, nat>

    method RemoveFile(name: string, w: World) returns (ok: bool)
      modifies this
      ensures ok == w.unlinks(name)
      ensures files == if ok then old(files) - {name} else old(files)
    {
      ok := w.unlinks(name);
      if ok { files := files - {name}; }
    }

    /** Remove one victim and the state beside it. */
    method RemoveWithState(s: Staged, w: World) returns (ok: bool)
      modifies this
      ensures ok == w.unlinks(s.name)
      ensures files == if !ok then old(files)
                       else old(files) - Discarded([s], w)
    {
      ok := RemoveFile(s.name, w);
      if ok {
        var _ := RemoveFile(StateBeside(s.name), w);
      }
    }

    method ReapStagingOver(listing: Result<seq<DirEntry>>, cap: nat, w: World) returns (removed: nat)
      modifies this
      ensures listing.Err? ==> removed == 0 && files == old(files)
      ensures listing.Ok? ==> removed == |Plan(listing.value, cap, w).victims|
                              && files == old(files) - Discarded(Plan(listing.value, cap, w).victims, w)
    {
      if listing.Err? { return 0; }
      var staging := Collect(listing.value);
      var total := Bytes(staging);
      if total <= cap {
        NothingUnderCap(OldestFirst(staging), cap, total, w);
        return 0;
      }
      staging := OldestFirst(staging);
      removed := Reap(staging, cap, total, w);
    }

    method Reap(staging: seq<Staged>, cap: nat, bytes: nat, w: World) returns (removed: nat)
      modifies this
      ensures removed == |Swept(staging, cap, bytes, w).victims|
      ensures files == old(files) - Discarded(Swept(staging, cap, bytes, w).victims, w)
    {
      removed := 0;
      var total: nat := bytes;
      ghost var victims: seq<Staged> := [];
      for i := 0 to |staging|
        invariant Swept(staging[..i], cap, bytes, w) == Sweep(victims, total)
        invariant removed == |victims| && files == old(files) - Discarded(victims, w)
      {
        assert staging[..i + 1][..i] == staging[..i];
        var s := staging[i];
        if total <= cap {
          StaysUnderCap(staging, i, cap, bytes, w);
          return;
        }
        if w.isProtected(s.name) { continue; }
        var ok := RemoveWithState(s, w);
        if !ok { continue; }
        total := SaturatingSub(total, s.len);
        removed := removed + 1;
        DiscardedOneMore(old(files), victims, s, w);
        victims := victims + [s];
      }
      assert staging[..|staging|] == staging;
    }
  }

  lemma DiscardedOneMore(files: map<string, nat>, victims: seq<Staged>, s: Staged, w: World)
    ensures var state := if w.unlinks(StateBeside(s.name)) then {StateBeside(s.name)} else {};
      files - Discarded(victims, w) - ({s.name} + state) == files - Discarded(victims + [s], w)
  {
    assert (victims + [s])[..|victims|] == victims;
  }

  method Collect(listing: seq<DirEntry>) returns (staging: seq<Staged>)
    ensures staging == Measured(listing)
  {
    staging := [];
    for i := 0 to |listing|
      invariant staging == Measured(listing[..i])
    {
      assert listing[..i + 1][..i] == listing[..i];
      var e := listing[i];
      if !IsStaging(e.name) { continue; }
      if e.meta.None? { continue; }
      var modified := if e.meta.value.modified.Some? then e.meta.value.modified.value else 0;
      staging := staging + [Staged(e.name, modified, e.meta.value.len)];
    }
    assert listing[..|listing|] == listing;
  }

  lemma {:induction false} StaysUnderCap(staging: seq<Staged>, i: nat, cap: nat, total: nat, w: World)
    requires i <= |staging| && Swept(staging[..i], cap, total, w).total <= cap
    ensures Swept(staging, cap, total, w) == Swept(staging[..i], cap, total, w)
    decreases |staging| - i
  {
    if i < |staging| {
      assert staging[..i + 1][..i] == staging[..i];
      StaysUnderCap(staging, i + 1, cap, total, w);
    } else {
      assert staging[..i] == staging;
    }
  }

  lemma NothingUnderCap(staging: seq<Staged>, cap: nat, total: nat, w: World)
    requires total <= cap
    ensures Swept(staging, cap, total, w) == Sweep([], total)
  {
    StaysUnderCap(staging, 0, cap, total, w);
  }

  // ---------------------------------------------------------------------------------------------
  // The order
  // ---------------------------------------------------------------------------------------------

  predicate ByAge(s: seq<Staged>) { S.Ordered(s, Age) }

  /** The files of one age, in their order. */
  function OfAge(s: seq<Staged>, age: nat): seq<Staged> {
    if s == [] then [] else
      OfAge(s[..|s| - 1], age) + (if s[|s| - 1].modified == age then [s[|s| - 1]] else [])
  }

  lemma {:induction false} InsertIsStable(s: seq<Staged>, x: Staged, age: nat)
    requires ByAge(s)
    ensures OfAge(S.Insert(s, x, Age), age) == OfAge(s, age) + (if x.modified == age then [x] else [])
  {
    if s == [] || s[|s| - 1].modified <= x.modified {
      assert (s + [x])[..|s|] == s;
    } else {
      var n := |s| - 1;
      InsertIsStable(s[..n], x, age);
      var t := S.Insert(s[..n], x, Age);
      assert (t + [s[n]])[..|t|] == t;
    }
  }

  lemma {:induction false} InsertBytes(s: seq<Staged>, x: Staged)
    ensures Bytes(S.Insert(s, x, Age)) == Bytes(s) + x.len
  {
    if s == [] || s[|s| - 1].modified <= x.modified {
      assert (s + [x])[..|s|] == s;
    } else {
      var n := |s| - 1;
      InsertBytes(s[..n], x);
      var t := S.Insert(s[..n], x, Age);
      assert (t + [s[n]])[..|t|] == t;
    }
  }

  /** The sweep's order: oldest first, ties in listing order, and nothing lost or repeated. */
  lemma {:induction false} OldestFirstIsAStableSort(s: seq<Staged>, age: nat)
    ensures ByAge(OldestFirst(s)) && multiset(OldestFirst(s)) == multiset(s)
    ensures OfAge(OldestFirst(s), age) == OfAge(s, age)
    ensures Bytes(OldestFirst(s)) == Bytes(s)
  {
    S.SortedIsOrdered(s, Age);
    if s == [] {
    } else {
      var n := |s| - 1;
      OldestFirstIsAStableSort(s[..n], age);
      InsertIsStable(OldestFirst(s[..n]), s[n], age);
      InsertBytes(OldestFirst(s[..n]), s[n]);
    }
  }

  // ---------------------------------------------------------------------------------------------
  // What a sweep removes
  // ---------------------------------------------------------------------------------------------

  /** The files a sweep may take at all, in its order. */
  function Eligible(staging: seq<Staged>, w: World): seq<Staged> {
    if staging == [] then [] else
      Eligible(staging[..|staging| - 1], w)
        + (if w.Removable(staging[|staging| - 1]) then [staging[|staging| - 1]] else [])
  }

  lemma BytesOneMore(s: seq<Staged>, x: Staged)
    ensures Bytes(s + [x]) == Bytes(s) + x.len
  {
    assert (s + [x])[..|s|] == s;
  }

  /** What one more file does to a sweep that so far took a prefix of what it might. */
  ghost predicate Exact(sweep: Sweep, eligible: seq<Staged>, cap: nat, total: nat, bytes: nat) {
    && sweep.victims <= eligible && (sweep.victims < eligible ==> sweep.total <= cap)
    && Bytes(sweep.victims) <= bytes <= total && sweep.total == total - Bytes(sweep.victims)
  }

  lemma ExactOneMore(sweep: Sweep, eligible: seq<Staged>, s: Staged, cap: nat, total: nat, bytes: nat, w: World)
    requires Exact(sweep, eligible, cap, total, bytes) && bytes + s.len <= total
    ensures Exact(Visit(sweep, s, cap, w), eligible + (if w.Removable(s) then [s] else []), cap, total, bytes + s.len)
  {
    BytesOneMore(sweep.victims, s);
    if !w.Removable(s) {
      assert eligible + [] == eligible;
    } else if sweep.total > cap {
      assert sweep.victims == eligible;
    }
  }

  lemma {:induction false} CountIsExact(staging: seq<Staged>, cap: nat, total: nat, w: World)
    requires total >= Bytes(staging)
    ensures Exact(Swept(staging, cap, total, w), Eligible(staging, w), cap, total, Bytes(staging))
  {
    if staging == [] {
    } else {
      var n := |staging| - 1;
      CountIsExact(staging[..n], cap, total, w);
      ExactOneMore(Swept(staging[..n], cap, total, w), Eligible(staging[..n], w), staging[n], cap, total,
                   Bytes(staging[..n]), w);
    }
  }

  lemma {:induction false} TakenOverCap(staging: seq<Staged>, cap: nat, total: nat, w: World, j: nat)
    requires total >= Bytes(staging) && j < |Swept(staging, cap, total, w).victims|
    ensures total - Bytes(Swept(staging, cap, total, w).victims[..j]) > cap
  {
    var n := |staging| - 1;
    var before := Swept(staging[..n], cap, total, w);
    CountIsExact(staging[..n], cap, total, w);
    if j < |before.victims| {
      TakenOverCap(staging[..n], cap, total, w, j);
      assert (before.victims + [staging[n]])[..j] == before.victims[..j];
    } else {
      assert (before.victims + [staging[n]])[..j] == before.victims;
    }
  }

  /** The victims are an oldest-first prefix of the removable files, each taken while the bytes that were
    * still counted exceeded the cap; a removable file is left only when they no longer do; and the count is
    * what was there less what was taken. */
  lemma VictimsAreAPrefix(staging: seq<Staged>, cap: nat, w: World)
    ensures var sweep, eligible, bytes := Swept(staging, cap, Bytes(staging), w), Eligible(staging, w), Bytes(staging);
      && sweep.victims <= eligible
      && (forall j :: 0 <= j < |sweep.victims| ==> bytes - Bytes(sweep.victims[..j]) > cap)
      && (sweep.victims < eligible ==> bytes - Bytes(sweep.victims) <= cap)
      && sweep.total == bytes - Bytes(sweep.victims)
  {
    CountIsExact(staging, cap, Bytes(staging), w);
    forall j | 0 <= j < |Swept(staging, cap, Bytes(staging), w).victims|
      ensures Bytes(staging) - Bytes(Swept(staging, cap, Bytes(staging), w).victims[..j]) > cap
    {
      TakenOverCap(staging, cap, Bytes(staging), w, j);
    }
  }

  /** A sweep never touches a protected file, and ends under the cap unless nothing removable is left. */
  lemma SweepEndsUnderCapOrBlocked(staging: seq<Staged>, cap: nat, w: World)
    ensures var sweep := Swept(staging, cap, Bytes(staging), w);
      && (forall v :: v in sweep.victims ==> v in staging && !w.isProtected(v.name) && w.unlinks(v.name))
      && (sweep.total <= cap ||
          forall s :: s in staging && s !in sweep.victims ==> w.isProtected(s.name) || !w.unlinks(s.name))
  {
    CountIsExact(staging, cap, Bytes(staging), w);
    forall s ensures s in Eligible(staging, w) <==> s in staging && w.Removable(s) { EligibleMeans(staging, w, s); }
    var sweep := Swept(staging, cap, Bytes(staging), w);
    assert forall v :: v in sweep.victims ==> v in Eligible(staging, w);
    if sweep.total > cap { assert sweep.victims == Eligible(staging, w); }
  }

  lemma {:induction false} EligibleMeans(staging: seq<Staged>, w: World, s: Staged)
    ensures s in Eligible(staging, w) <==> s in staging && w.Removable(s)
  {
    if staging == [] {
    } else {
      EligibleMeans(staging[..|staging| - 1], w, s);
      assert staging == staging[..|staging| - 1] + [staging[|staging| - 1]];
    }
  }

  // ---------------------------------------------------------------------------------------------
  // The disk
  // ---------------------------------------------------------------------------------------------

  /** A listing of this directory: each name once, each measured length the file's own. */
  ghost predicate Lists(listing: seq<DirEntry>, files: map<string, nat>) {
    && (forall i, j :: 0 <= i < j < |listing| ==> listing[i].name != listing[j].name)
    && (forall i :: 0 <= i < |listing| && listing[i].meta.Some? ==>
          listing[i].name in files && files[listing[i].name] == listing[i].meta.value.len)
  }

  /** The bytes, on this disk, of the staging files a listing measured. */
  function BytesOnDisk(staging: seq<Staged>, files: map<string, nat>): nat {
    if staging == [] then 0 else
      var name := staging[|staging| - 1].name;
      BytesOnDisk(staging[..|staging| - 1], files) + (if name in files then files[name] else 0)
  }

  predicate DistinctNames(s: seq<Staged>) { forall i, j :: 0 <= i < j < |s| ==> s[i].name != s[j].name }

  predicate StagedOn(x: Staged, files: map<string, nat>) {
    IsStaging(x.name) && x.name in files && files[x.name] == x.len
  }

  /** Distinct staging files, each as long as this disk says. */
  ghost predicate OnDisk(s: seq<Staged>, files: map<string, nat>) {
    DistinctNames(s) && forall x :: x in s ==> StagedOn(x, files)
  }

  /** This entry is this staging file, as measured; one that carries no time counts as the oldest. */
  predicate Measures(e: DirEntry, s: Staged) {
    IsStaging(e.name) && e.meta.Some? && s.name == e.name && s.len == e.meta.value.len
      && s.modified == if e.meta.value.modified.Some? then e.meta.value.modified.value else 0
  }

  /** What a sweep considers is exactly the measurable staging files of the listing. */
  lemma {:induction false} MeasuredIsListed(listing: seq<DirEntry>, s: Staged)
    ensures s in Measured(listing) <==> exists i :: 0 <= i < |listing| && Measures(listing[i], s)
  {
    if listing == [] {
    } else {
      var n := |listing| - 1;
      MeasuredIsListed(listing[..n], s);
      if s in Measured(listing[..n]) {
        var i :| 0 <= i < n && Measures(listing[..n][i], s);
        assert Measures(listing[i], s);
      }
      if i :| 0 <= i < n && Measures(listing[i], s) { assert Measures(listing[..n][i], s); }
    }
  }

  lemma {:induction false} MeasuredNames(listing: seq<DirEntry>)
    requires forall i, j :: 0 <= i < j < |listing| ==> listing[i].name != listing[j].name
    ensures DistinctNames(Measured(listing))
  {
    if listing == [] {
    } else {
      var n := |listing| - 1;
      MeasuredNames(listing[..n]);
      var before := Measured(listing[..n]);
      forall i | 0 <= i < |before| ensures before[i].name != listing[n].name {
        MeasuredIsListed(listing[..n], before[i]);
      }
    }
  }

  lemma MeasuredIsOnDisk(listing: seq<DirEntry>, files: map<string, nat>)
    requires Lists(listing, files)
    ensures OnDisk(Measured(listing), files)
  {
    MeasuredNames(listing);
    forall x | x in Measured(listing) ensures StagedOn(x, files) { MeasuredIsListed(listing, x); }
  }

  lemma {:induction false} InsertNames(s: seq<Staged>, x: Staged)
    requires DistinctNames(s) && forall i :: 0 <= i < |s| ==> s[i].name != x.name
    ensures DistinctNames(S.Insert(s, x, Age))
  {
    if s == [] || s[|s| - 1].modified <= x.modified {
    } else {
      var n := |s| - 1;
      InsertNames(s[..n], x);
      var t := S.Insert(s[..n], x, Age);
      forall i | 0 <= i < |t| ensures t[i].name != s[n].name { S.InsertHolds(s[..n], x, Age, t[i]); }
    }
  }

  lemma {:induction false} SortNames(s: seq<Staged>)
    requires DistinctNames(s)
    ensures DistinctNames(OldestFirst(s))
  {
    if s == [] {
    } else {
      var n := |s| - 1;
      SortNames(s[..n]);
      var t := OldestFirst(s[..n]);
      forall i | 0 <= i < |t| ensures t[i].name != s[n].name { S.SortedHolds(s[..n], Age, t[i]); }
      InsertNames(t, s[n]);
    }
  }

  lemma SortIsOnDisk(s: seq<Staged>, files: map<string, nat>)
    requires OnDisk(s, files)
    ensures OnDisk(OldestFirst(s), files)
  {
    SortNames(s);
    forall x | x in OldestFirst(s) ensures StagedOn(x, files) { S.SortedHolds(s, Age, x); }
  }

  /** What a sweep takes off the disk: each victim, and the download state beside it where the system lets that go. */
  lemma {:induction false} DiscardedMeans(victims: seq<Staged>, w: World, name: string)
    ensures name in Discarded(victims, w)
      <==> exists v :: v in victims && (name == v.name || (name == v.name + ".state" && w.unlinks(name)))
  {
    if victims == [] {
    } else {
      var n := |victims| - 1;
      DiscardedMeans(victims[..n], w, name);
      assert victims == victims[..n] + [victims[n]];
    }
  }

  lemma {:induction false} BytesLeft(order: seq<Staged>, files: map<string, nat>, gone: set<string>, more: set<string>)
    requires forall i :: 0 <= i < |order| ==> order[i].name !in more
    ensures BytesOnDisk(order, files - (gone + more)) == BytesOnDisk(order, files - gone)
  {
    if order == [] {
    } else {
      BytesLeft(order[..|order| - 1], files, gone, more);
    }
  }

  lemma {:induction false} CountedIsOnDisk(order: seq<Staged>, files: map<string, nat>, cap: nat, total: nat, w: World)
    requires OnDisk(order, files) && total >= Bytes(order)
    ensures var victims := Swept(order, cap, total, w).victims;
      BytesOnDisk(order, files - Discarded(victims, w)) == Bytes(order) - Bytes(victims)
  {
    if order == [] {
    } else {
      var n := |order| - 1;
      var s, before := order[n], Swept(order[..n], cap, total, w);
      assert s in order && StagedOn(s, files);
      assert OnDisk(order[..n], files);
      CountedIsOnDisk(order[..n], files, cap, total, w);
      if before.total <= cap || !w.Removable(s) {
        EarlierVictims(order, n, cap, total, w);
      } else {
        forall i | 0 <= i < n ensures IsStaging(order[i].name) {
          assert order[i] in order && StagedOn(order[i], files);
        }
        OneMoreVictim(order[..n], before.victims, s, files, w);
      }
    }
  }

  /** One victim more: its bytes go, and no other file's do. */
  lemma OneMoreVictim(order: seq<Staged>, victims: seq<Staged>, s: Staged, files: map<string, nat>, w: World)
    requires forall i :: 0 <= i < |order| ==> IsStaging(order[i].name) && order[i].name != s.name
    ensures Bytes(victims + [s]) == Bytes(victims) + s.len && s.name in Discarded(victims + [s], w)
    ensures BytesOnDisk(order, files - Discarded(victims + [s], w)) == BytesOnDisk(order, files - Discarded(victims, w))
  {
    var state := if w.unlinks(StateBeside(s.name)) then {StateBeside(s.name)} else {};
    BytesOneMore(victims, s);
    StateIsNotStaging(s.name);
    assert (victims + [s])[..|victims|] == victims;
    assert Discarded(victims + [s], w) == Discarded(victims, w) + ({s.name} + state);
    BytesLeft(order, files, Discarded(victims, w), {s.name} + state);
  }

  lemma EarlierVictims(order: seq<Staged>, n: nat, cap: nat, total: nat, w: World)
    requires n < |order| && total >= Bytes(order[..n]) && IsStaging(order[n].name) && DistinctNames(order)
    ensures order[n].name !in Discarded(Swept(order[..n], cap, total, w).victims, w)
  {
    var victims := Swept(order[..n], cap, total, w).victims;
    DiscardedMeans(victims, w, order[n].name);
    if v :| v in victims && (order[n].name == v.name || order[n].name == StateBeside(v.name)) {
      CountIsExact(order[..n], cap, total, w);
      EligibleMeans(order[..n], w, v);
      StateIsNotStaging(v.name);
    }
  }

  /** What a sweep leaves on the disk: the bytes it still counts are the bytes of the measured files that
    * survive, and nothing is gone but its victims and the download states beside them. */
  lemma SweepOnDisk(listing: seq<DirEntry>, files: map<string, nat>, cap: nat, w: World, name: string)
    requires Lists(listing, files) && name in files
    ensures var sweep, order := Plan(listing, cap, w), OldestFirst(Measured(listing));
      var left := files - Discarded(sweep.victims, w);
      && BytesOnDisk(order, left) == sweep.total
      && (name !in left ==> exists v :: v in sweep.victims && (name == v.name || name == StateBeside(v.name)))
  {
    var order := OldestFirst(Measured(listing));
    MeasuredIsOnDisk(listing, files);
    SortIsOnDisk(Measured(listing), files);
    OldestFirstIsAStableSort(Measured(listing), 0);
    CountedIsOnDisk(order, files, cap, Bytes(order), w);
    CountIsExact(order, cap, Bytes(order), w);
    DiscardedMeans(Plan(listing, cap, w).victims, w, name);
  }

  // ---------------------------------------------------------------------------------------------
  // The whole sweep, on the listing alone
  // ---------------------------------------------------------------------------------------------

  /** These places are those of the listed files a sweep considers, in listing order, and this is what it makes of
    * each. */
  ghost predicate Considers(listing: seq<DirEntry>, staged: seq<Staged>, picks: seq<nat>) {
    && |staged| == |picks| && (forall j, k :: 0 <= j < k < |picks| ==> picks[j] < picks[k])
    && (forall k :: 0 <= k < |picks| ==> picks[k] < |listing| && Measures(listing[picks[k]], staged[k]))
    && AllOf(listing, picks)
  }

  predicate IsConsidered(e: DirEntry) { e.meta.Some? && HasSuffix(e.name, ".download.tmp") }

  ghost predicate AllOf(listing: seq<DirEntry>, picks: seq<nat>) {
    forall i :: 0 <= i < |listing| ==> (i in picks <==> IsConsidered(listing[i]))
  }

  /** What a sweep considers, exactly: every entry with the staging suffix whose metadata could be read, in listing
    * order; one whose age is unknown counts as the oldest. */
  lemma {:induction false} MeasuredSelects(listing: seq<DirEntry>) returns (picks: seq<nat>)
    ensures Considers(listing, Measured(listing), picks)
  {
    if listing == [] {
      picks := [];
    } else {
      var n := |listing| - 1;
      var before := MeasuredSelects(listing[..n]);
      MeasuredOneMore(listing);
      picks := ConsidersOneMore(listing, Measured(listing[..n]), Measured(listing), before);
    }
  }

  ghost predicate OneMore(e: DirEntry, before: seq<Staged>, after: seq<Staged>) {
    if IsConsidered(e) then
      |after| == |before| + 1 && after[..|before|] == before && Measures(e, after[|before|])
    else after == before
  }

  lemma MeasuredOneMore(listing: seq<DirEntry>)
    requires listing != []
    ensures OneMore(listing[|listing| - 1], Measured(listing[..|listing| - 1]), Measured(listing))
  {
    var e, before := listing[|listing| - 1], Measured(listing[..|listing| - 1]);
    if IsConsidered(e) {
      var modified := if e.meta.value.modified.Some? then e.meta.value.modified.value else 0;
      assert Measured(listing) == before + [Staged(e.name, modified, e.meta.value.len)];
    } else {
      assert before + [] == before;
    }
  }

  lemma ConsidersOneMore(listing: seq<DirEntry>, before: seq<Staged>, after: seq<Staged>, picks: seq<nat>)
    returns (more: seq<nat>)
    requires listing != [] && Considers(listing[..|listing| - 1], before, picks)
    requires OneMore(listing[|listing| - 1], before, after)
    ensures Considers(listing, after, more)
  {
    var n := |listing| - 1;
    more := if IsConsidered(listing[n]) then picks + [n] else picks;
    assert forall k :: 0 <= k < |before| ==> after[k] == before[k];
    AllOfOneMore(listing, picks);
  }

  lemma AllOfOneMore(listing: seq<DirEntry>, picks: seq<nat>)
    requires listing != [] && AllOf(listing[..|listing| - 1], picks) && forall i :: i in picks ==> i < |listing| - 1
    ensures var n := |listing| - 1; AllOf(listing, if IsConsidered(listing[n]) then picks + [n] else picks)
  {
    var n := |listing| - 1;
    forall i | 0 <= i < n ensures i in picks <==> IsConsidered(listing[i]) { assert listing[..n][i] == listing[i]; }
  }

  predicate HasSuffix(name: string, suffix: string) { |name| >= |suffix| && name[|name| - |suffix|..] == suffix }

  lemma {:induction false} EligibleSelects(staging: seq<Staged>, w: World) returns (picks: seq<nat>)
    ensures Selects(staging, picks, Eligible(staging, w))
    ensures forall i :: 0 <= i < |staging| ==>
      (i in picks <==> !w.isProtected(staging[i].name) && w.unlinks(staging[i].name))
  {
    if staging == [] {
      picks := [];
    } else {
      var n := |staging| - 1;
      picks := EligibleSelects(staging[..n], w);
      SelectsOneMore(staging, picks, Eligible(staging[..n], w));
      assert forall i :: 0 <= i < n ==> staging[..n][i] == staging[i];
      if w.Removable(staging[n]) {
        picks := picks + [n];
      } else {
        assert Eligible(staging[..n], w) + [] == Eligible(staging[..n], w);
      }
    }
  }

  /** These places of a list of files are all of them once, oldest first, ties in their own order. */
  ghost predicate FromTheOldest(staged: seq<Staged>, places: seq<nat>) {
    && |places| == |staged| && (forall k :: 0 <= k < |places| ==> places[k] < |staged|)
    && forall j, k :: 0 <= j < k < |places| ==>
      || staged[places[j]].modified < staged[places[k]].modified
      || (staged[places[j]].modified == staged[places[k]].modified && places[j] < places[k])
  }

  /** Which files a sweep takes, exactly. It goes through the files it considers oldest first, and takes one when it is
    * neither protected nor refused and the bytes of all of them, less those already taken, are over the cap; so it
    * leaves one it could have taken only behind everything it took, with the bytes that remain within the cap. */
  lemma ASweepTakes(listing: seq<DirEntry>, cap: nat, w: World) returns (places: seq<nat>, picks: seq<nat>)
    ensures var staged, victims := Measured(listing), Plan(listing, cap, w).victims;
      && FromTheOldest(staged, places) && |victims| == |picks|
      && (forall j, k :: 0 <= j < k < |picks| ==> picks[j] < picks[k])
      && (forall k :: 0 <= k < |picks| ==> picks[k] < |places| && victims[k] == staged[places[picks[k]]])
      && (forall i :: i in picks ==> !w.isProtected(staged[places[i]].name) && w.unlinks(staged[places[i]].name))
      && (forall k :: 0 <= k < |picks| ==> Bytes(staged) - Bytes(victims[..k]) > cap)
      && (forall i :: 0 <= i < |places| && i !in picks
                      && !w.isProtected(staged[places[i]].name) && w.unlinks(staged[places[i]].name) ==>
            Bytes(staged) - Bytes(victims) <= cap && forall k :: 0 <= k < |picks| ==> picks[k] < i)
  {
    var staged := Measured(listing);
    var order := OldestFirst(staged);
    places := S.SortedIsStable(staged, Age);
    assert forall k :: 0 <= k < |order| ==> order[k] == staged[places[k]];
    OldestFirstIsAStableSort(staged, 0);
    VictimsAreAPrefix(order, cap, w);
    picks := TakenPlaces(order, cap, w);
  }

  lemma InAPrefixOrAfter(places: seq<nat>, n: nat, i: nat)
    requires n <= |places| && i in places && forall j, k :: 0 <= j < k < |places| ==> places[j] < places[k]
    ensures i in places[..n] || (n < |places| && forall k :: 0 <= k < n ==> places[k] < i)
  {
    var m :| 0 <= m < |places| && places[m] == i;
    if m < n { assert places[..n][m] == i; }
  }

  lemma TakenPlaces(order: seq<Staged>, cap: nat, w: World) returns (picks: seq<nat>)
    ensures var victims := Swept(order, cap, Bytes(order), w).victims;
      && Selects(order, picks, victims)
      && (forall i :: i in picks ==> !w.isProtected(order[i].name) && w.unlinks(order[i].name))
      && (forall i :: 0 <= i < |order| && i !in picks && !w.isProtected(order[i].name) && w.unlinks(order[i].name) ==>
            Bytes(order) - Bytes(victims) <= cap && forall k :: 0 <= k < |picks| ==> picks[k] < i)
  {
    VictimsAreAPrefix(order, cap, w);
    var eligible := EligibleSelects(order, w);
    var victims := Swept(order, cap, Bytes(order), w).victims;
    picks := eligible[..|victims|];
    forall i | 0 <= i < |order| && i in eligible && i !in picks
      ensures victims < Eligible(order, w) && forall k :: 0 <= k < |picks| ==> picks[k] < i
    {
      InAPrefixOrAfter(eligible, |victims|, i);
    }
  }
}
