/** Capsule identities, the cache paths built from them, and the crash-tolerant migration of the cache
  * from the legacy artifact extension to the current one. */
module CapsuleKey {
  import opened Common

  // ---------------------------------------------------------------------------------------------
  // Identities
  // ---------------------------------------------------------------------------------------------

  const CANONICAL_ID_LEN: nat := 64

  predicate IsHexDigit(c: char) { '0' <= c <= '9' || 'a' <= c <= 'f' || 'A' <= c <= 'F' }

  predicate IsCanonicalHexId(s: string) {
    |s| == CANONICAL_ID_LEN && forall i :: 0 <= i < |s| ==> IsHexDigit(s[i])
  }

  datatype Key = Key(store: string, root: string)

  function Parse(store: string, root: string): Option<Key> {
    if IsCanonicalHexId(store) && IsCanonicalHexId(root) then Some(Key(AsciiLower(store), AsciiLower(root))) else None
  }

  /** The value of one hex digit, and the 64 nibbles an id spells. */
  function Nibble(c: char): nat
    requires IsHexDigit(c)
  {
    if c <= '9' then c as nat - '0' as nat
    else if c <= 'F' then c as nat - 'A' as nat + 10
    else c as nat - 'a' as nat + 10
  }

  ghost predicate SameBytes(a: string, b: string)
    requires IsCanonicalHexId(a) && IsCanonicalHexId(b)
  {
    forall i :: 0 <= i < CANONICAL_ID_LEN ==> Nibble(a[i]) == Nibble(b[i])
  }

  /** Two canonical ids fold to one text exactly when they spell the same 32 bytes. */
  lemma FoldingIsByteEquality(a: string, b: string)
    requires IsCanonicalHexId(a) && IsCanonicalHexId(b)
    ensures AsciiLower(a) == AsciiLower(b) <==> SameBytes(a, b)
  {
    if AsciiLower(a) == AsciiLower(b) {
      forall i | 0 <= i < CANONICAL_ID_LEN ensures Nibble(a[i]) == Nibble(b[i]) {
        AsciiLowerAt(a, i);
        AsciiLowerAt(b, i);
      }
    }
    if SameBytes(a, b) {
      forall i | 0 <= i < CANONICAL_ID_LEN ensures AsciiLower(a)[i] == AsciiLower(b)[i] {
        assert Nibble(a[i]) == Nibble(b[i]);
        AsciiLowerAt(a, i);
        AsciiLowerAt(b, i);
      }
    }
  }

  lemma FoldingIsIdempotent(s: string)
    requires IsCanonicalHexId(s)
    ensures IsCanonicalHexId(AsciiLower(s)) && AsciiLower(AsciiLower(s)) == AsciiLower(s)
  {
    forall i | 0 <= i < CANONICAL_ID_LEN
      ensures IsHexDigit(AsciiLower(s)[i]) && AsciiLower(AsciiLower(s))[i] == AsciiLower(s)[i]
    {
      assert IsHexDigit(s[i]);
      AsciiLowerAt(s, i);
      AsciiLowerAt(AsciiLower(s), i);
    }
  }

  /** One identity per capsule: two admitted pairs are the same key exactly when they name the same bytes,
    * in whatever casing; and re-parsing a key's own text gives the key back. */
  lemma OneKeyPerCapsule(s: string, r: string, t: string, q: string)
    requires Parse(s, r).Some? && Parse(t, q).Some?
    ensures Parse(s, r) == Parse(t, q) <==> SameBytes(s, t) && SameBytes(r, q)
    ensures Parse(Parse(s, r).value.store, Parse(s, r).value.root) == Parse(s, r)
  {
    FoldingIsByteEquality(s, t);
    FoldingIsByteEquality(r, q);
    FoldingIsIdempotent(s);
    FoldingIsIdempotent(r);
  }

  /** What a path component may be without leaving the directory it is joined to. */
  predicate IsDirectChild(component: string) {
    && component != "" && component != "." && component != ".."
    && forall i :: 0 <= i < |component| ==> component[i] !in {'/', '\\', ':', '\0', '\n', '\r'}
  }

  /** Every key stays inside the cache, whatever the two strings it was parsed from. */
  lemma PathsStayInside(store: string, root: string)
    requires Parse(store, root).Some?
    ensures var k := Parse(store, root).value;
      && IsDirectChild(k.store) && IsDirectChild(ModulePath(k).name) && IsDirectChild(LegacyPath(k).name)
      && IsDirectChild(StagedModuleName(k))
  {
    var k := Parse(store, root).value;
    FoldingIsIdempotent(store);
    FoldingIsIdempotent(root);
  }

  // ---------------------------------------------------------------------------------------------
  // Names on disk
  // ---------------------------------------------------------------------------------------------

  type Bytes = seq<bv8>

  /** A file under the cache's `modules` directory. */
  datatype CachePath = CachePath(store: string, name: string)

  type Files = map<CachePath, Bytes>

  const CACHED: string := ".dig"
  const LEGACY: string := ".module"
  const RELAY: string := ".relay"

  function StripSuffix(s: string, suffix: string): Option<string> {
    if |s| >= |suffix| && s[|s| - |suffix|..] == suffix then Some(s[..|s| - |suffix|]) else None
  }

  function CachedRootStem(name: string): Option<string> {
    var current := StripSuffix(name, CACHED);
    if current.Some? then current else StripSuffix(name, LEGACY)
  }

  function RelayMarkerBeside(path: CachePath): Option<CachePath> {
    var stem := CachedRootStem(path.name);
    if stem.Some? then Some(CachePath(path.store, stem.value + RELAY)) else None
  }

  function ModulePath(key: Key): CachePath { CachePath(key.store, key.root + CACHED) }

  function LegacyPath(key: Key): CachePath { CachePath(key.store, key.root + LEGACY) }

  function StagedModuleName(key: Key): string { key.store + "-" + key.root + CACHED }

  lemma StripAppended(stem: string, suffix: string)
    ensures StripSuffix(stem + suffix, suffix) == Some(stem)
  {
  }

  lemma StripOther(stem: string, suffix: string, other: string)
    requires |suffix| > 0 && |other| > 0 && suffix[|suffix| - 1] != other[|other| - 1]
    ensures StripSuffix(stem + suffix, other) == None
  {
    var s := stem + suffix;
    assert s[|s| - 1] == suffix[|suffix| - 1];
    if |s| >= |other| { assert s[|s| - |other|..][|other| - 1] == s[|s| - 1]; }
  }

  /** A name is a cached capsule exactly when it is its stem with one of the two extensions. */
  lemma StemsAreExact(name: string, stem: string)
    ensures CachedRootStem(name) == Some(stem) <==> name == stem + CACHED || name == stem + LEGACY
  {
    StripAppended(stem, CACHED);
    StripAppended(stem, LEGACY);
    StripOther(stem, LEGACY, CACHED);
    if CachedRootStem(name) == Some(stem) {
      assert name == stem + CACHED || name == stem + LEGACY;
    }
  }

  /** A relay marker is never itself a capsule, and both artifacts of one stem share one marker, so
    * neither the scan nor the migration can lose one. */
  lemma MarkersSurviveExtensions(store: string, stem: string)
    ensures CachedRootStem(stem + RELAY) == None
    ensures RelayMarkerBeside(CachePath(store, stem + CACHED)) == Some(CachePath(store, stem + RELAY))
    ensures RelayMarkerBeside(CachePath(store, stem + LEGACY)) == Some(CachePath(store, stem + RELAY))
  {
    StripOther(stem, RELAY, CACHED);
    StripOther(stem, RELAY, LEGACY);
    StemsAreExact(stem + CACHED, stem);
    StemsAreExact(stem + LEGACY, stem);
  }

  /** The paths of distinct keys never meet: not the current ones, nor the legacy ones, nor each other,
    * nor the staging names, whose two ids are run together. */
  lemma PathsAreInjective(s: string, r: string, t: string, q: string)
    requires Parse(s, r).Some? && Parse(t, q).Some?
    ensures var a, b := Parse(s, r).value, Parse(t, q).value;
      && (ModulePath(a) == ModulePath(b) <==> a == b) && (LegacyPath(a) == LegacyPath(b) <==> a == b)
      && ModulePath(a) != LegacyPath(b) && (StagedModuleName(a) == StagedModuleName(b) <==> a == b)
  {
    var a, b := Parse(s, r).value, Parse(t, q).value;
    StripAppended(a.root, CACHED);
    StripAppended(b.root, CACHED);
    StripAppended(a.root, LEGACY);
    StripAppended(b.root, LEGACY);
    StripOther(b.root, LEGACY, CACHED);
    if StagedModuleName(a) == StagedModuleName(b) {
      assert StagedModuleName(a)[..CANONICAL_ID_LEN] == a.store && StagedModuleName(b)[..CANONICAL_ID_LEN] == b.store;
      assert StagedModuleName(a)[CANONICAL_ID_LEN + 1..2 * CANONICAL_ID_LEN + 1] == a.root;
      assert StagedModuleName(b)[CANONICAL_ID_LEN + 1..2 * CANONICAL_ID_LEN + 1] == b.root;
    }
  }

  function ResolveCachedPath(files: Files, key: Key): CachePath {
    if ModulePath(key) in files then ModulePath(key)
    else if LegacyPath(key) in files then LegacyPath(key)
    else ModulePath(key)
  }

  // ---------------------------------------------------------------------------------------------
  // The migration
  // ---------------------------------------------------------------------------------------------

  /** The position of the last dot of a name. */
  function LastDot(name: string): (d: Option<nat>)
    ensures d.Some? ==> d.value < |name|
  {
    if name == "" then None
    else if name[|name| - 1] == '.' then Some(|name| - 1)
    else LastDot(name[..|name| - 1])
  }

  /** A path's extension: what follows the last dot, unless the name starts with that dot. */
  function Extension(name: string): Option<string> {
    var dot := LastDot(name);
    if name == ".." || dot.None? || dot.value == 0 then None else Some(name[dot.value + 1..])
  }

  function WithExtension(name: string, extension: string): string
    requires Extension(name).Some?
  {
    name[..LastDot(name).value] + "." + extension
  }

  /** One directory entry the pass looks at, and whether the operating system carries out what is asked. */
  datatype Step = Step(path: CachePath, obeys: bool)

  predicate IsLegacy(path: CachePath) { Extension(path.name) == Some("module") }

  function Unified(path: CachePath): CachePath
    requires IsLegacy(path)
  {
    CachePath(path.store, WithExtension(path.name, "dig"))
  }

  function Removed(files: Files, path: CachePath, obeys: bool): Files {
    if obeys && path in files then files - {path} else files
  }

  function Renamed(files: Files, from: CachePath, to: CachePath, obeys: bool): Files {
    if obeys && from in files then (files - {from})[to := files[from]] else files
  }

  function StepOn(files: Files, step: Step): Files {
    if !IsLegacy(step.path) then files
    else if Unified(step.path) in files then Removed(files, step.path, step.obeys)
    else Renamed(files, step.path, Unified(step.path), step.obeys)
  }

  /** The disk after these entries; a crash leaves the disk after some prefix of a pass. */
  function AfterSteps(files: Files, steps: seq<Step>): Files {
    if steps == [] then files else StepOn(AfterSteps(files, steps[..|steps| - 1]), steps[|steps| - 1])
  }

  /** What reading one store's entry of the modules directory gives. */
  datatype StoreEntry = StoreEntry(store: string, isDir: bool, listing: Option<seq<(string, bool)>>)

  function StepsIn(store: string, names: seq<(string, bool)>): seq<Step> {
    seq(|names|, i requires 0 <= i < |names| => Step(CachePath(store, names[i].0), names[i].1))
  }

  function StepsOf(stores: seq<StoreEntry>): seq<Step> {
    if stores == [] then [] else
      var s := stores[|stores| - 1];
      StepsOf(stores[..|stores| - 1]) + (if s.isDir && s.listing.Some? then StepsIn(s.store, s.listing.value) else [])
  }

  lemma StepsOneMore(stores: seq<StoreEntry>, i: nat)
    requires i < |stores|
    ensures StepsOf(stores[..i + 1])
         == if stores[i].isDir && stores[i].listing.Some?
            then StepsOf(stores[..i]) + StepsIn(stores[i].store, stores[i].listing.value) else StepsOf(stores[..i])
  {
    assert stores[..i + 1][..i] == stores[..i];
    assert StepsOf(stores[..i]) + [] == StepsOf(stores[..i]);
  }

  class Cache {
    var files: Files

    method RemoveFile(path: CachePath, obeys: bool)
      modifies this
      ensures files == Removed(old(files), path, obeys)
    {
      if obeys && path in files { files := files - {path}; }
    }

    method Rename(from: CachePath, to: CachePath, obeys: bool)
      modifies this
      ensures files == Renamed(old(files), from, to, obeys)
    {
      if obeys && from in files {
        var bytes := files[from];
        files := files - {from};
        files := files[to := bytes];
      }
    }

    /** `stores` is what listing the modules directory gives, or nothing when it cannot be read. */
    method MigrateLegacyModuleExtensions(stores: Option<seq<StoreEntry>>)
      modifies this
      ensures files == if stores.None? then old(files) else AfterSteps(old(files), StepsOf(stores.value))
    {
      if stores.None? { return; }
      ghost var done: seq<Step> := [];
      for i := 0 to |stores.value|
        invariant done == StepsOf(stores.value[..i])
        invariant files == AfterSteps(old(files), done)
      {
        var entry := stores.value[i];
        StepsOneMore(stores.value, i);
        if !entry.isDir || entry.listing.None? { continue; }
        MigrateStore(entry.store, entry.listing.value);
        AfterBoth(old(files), done, StepsIn(entry.store, entry.listing.value));
        done := done + StepsIn(entry.store, entry.listing.value);
      }
      assert stores.value[..|stores.value|] == stores.value;
    }

    method MigrateStore(store: string, names: seq<(string, bool)>)
      modifies this
      ensures files == AfterSteps(old(files), StepsIn(store, names))
    {
      for j := 0 to |names|
        invariant files == AfterSteps(old(files), StepsIn(store, names)[..j])
      {
        var legacy, obeys := CachePath(store, names[j].0), names[j].1;
        assert StepsIn(store, names)[..j + 1][..j] == StepsIn(store, names)[..j];
        if Extension(legacy.name) != Some("module") { continue; }
        var unified := CachePath(store, WithExtension(legacy.name, "dig"));
        if unified in files {
          RemoveFile(legacy, obeys);
        } else {
          Rename(legacy, unified, obeys);
        }
      }
      assert StepsIn(store, names)[..|names|] == StepsIn(store, names);
    }
  }

  lemma {:induction false} AfterBoth(files: Files, a: seq<Step>, b: seq<Step>)
    ensures AfterSteps(files, a + b) == AfterSteps(AfterSteps(files, a), b)
  {
    if b == [] {
      assert a + b == a;
    } else {
      AfterBoth(files, a, b[..|b| - 1]);
      assert (a + b)[..|a + b| - 1] == a + b[..|b| - 1];
    }
  }

  // ---------------------------------------------------------------------------------------------
  // What the migration keeps
  // ---------------------------------------------------------------------------------------------

  lemma {:induction false} LastDotOfAppended(stem: string, extension: string)
    requires '.' !in extension
    ensures LastDot(stem + "." + extension) == Some(|stem|)
  {
    var name := stem + "." + extension;
    if extension == "" {
    } else {
      var n := |extension| - 1;
      LastDotOfAppended(stem, extension[..n]);
      assert name[|name| - 1] == extension[n];
      assert name[..|name| - 1] == stem + "." + extension[..n];
    }
  }

  lemma {:induction false} LastDotIsADot(name: string)
    requires LastDot(name).Some?
    ensures name[LastDot(name).value] == '.'
  {
    if name[|name| - 1] == '.' {
    } else {
      LastDotIsADot(name[..|name| - 1]);
    }
  }

  /** A legacy path is a non-empty stem with the legacy suffix. */
  ghost predicate HasLegacyStem(path: CachePath, stem: string) {
    stem != "" && path == CachePath(path.store, stem + LEGACY)
  }

  /** The pass moves exactly the legacy capsules, each onto the same stem with the current suffix. */
  lemma LegacyIsAStem(path: CachePath)
    requires IsLegacy(path)
    ensures exists stem :: HasLegacyStem(path, stem) && Unified(path) == CachePath(path.store, stem + CACHED)
  {
    LastDotIsADot(path.name);
    var d := LastDot(path.name).value;
    var stem := path.name[..d];
    assert path.name == stem + LEGACY;
    assert stem + "." + "dig" == stem + CACHED;
    assert HasLegacyStem(path, stem);
  }

  lemma StemsAreLegacy(store: string, stem: string)
    ensures IsLegacy(CachePath(store, stem + LEGACY)) <==> stem != ""
    ensures stem != "" ==> Unified(CachePath(store, stem + LEGACY)) == CachePath(store, stem + CACHED)
  {
    LastDotOfAppended(stem, "module");
    assert stem + "." + "module" == stem + LEGACY;
    assert (stem + LEGACY)[|stem| + 1..] == "module";
    assert (stem + LEGACY)[..|stem|] == stem;
    assert stem + "." + "dig" == stem + CACHED;
  }

  /** Suffixed names agree exactly when the stems and the suffixes do. */
  lemma SuffixesSeparate(a: string, b: string)
    ensures (a + LEGACY == b + LEGACY <==> a == b) && (a + CACHED == b + CACHED <==> a == b)
    ensures a + CACHED != b + LEGACY && a + CACHED != b + RELAY && a + LEGACY != b + RELAY
  {
    StripAppended(a, LEGACY);
    StripAppended(b, LEGACY);
    StripAppended(a, CACHED);
    StripAppended(b, CACHED);
    StripOther(b, LEGACY, CACHED);
    StripOther(b, RELAY, CACHED);
    StripOther(b, RELAY, LEGACY);
  }

  /** What reading a stem finds on this disk: the current artifact, else the legacy one. */
  function Resolved(files: Files, store: string, stem: string): Option<Bytes> {
    if CachePath(store, stem + CACHED) in files then Some(files[CachePath(store, stem + CACHED)])
    else if CachePath(store, stem + LEGACY) in files then Some(files[CachePath(store, stem + LEGACY)])
    else None
  }

  /** The capsule this stem names is relayed: held, with the marker beside it. */
  predicate Relayed(files: Files, store: string, stem: string) {
    Resolved(files, store, stem).Some? && CachePath(store, stem + RELAY) in files
  }

  lemma StepKeepsReaders(files: Files, step: Step, store: string, stem: string)
    ensures Resolved(StepOn(files, step), store, stem) == Resolved(files, store, stem)
    ensures CachePath(store, stem + RELAY) in StepOn(files, step) <==> CachePath(store, stem + RELAY) in files
  {
    if IsLegacy(step.path) {
      LegacyIsAStem(step.path);
      var s :| HasLegacyStem(step.path, s) && Unified(step.path) == CachePath(step.path.store, s + CACHED);
      SuffixesSeparate(s, stem);
      SuffixesSeparate(stem, s);
      MoveKeepsReaders(files, step.path.store, s, step.obeys, store, stem);
    }
  }

  lemma MoveKeepsReaders(files: Files, at: string, moved: string, obeys: bool, store: string, stem: string)
    ensures var legacy, unified := CachePath(at, moved + LEGACY), CachePath(at, moved + CACHED);
      var now := if unified in files then Removed(files, legacy, obeys) else Renamed(files, legacy, unified, obeys);
      && Resolved(now, store, stem) == Resolved(files, store, stem)
      && (CachePath(store, stem + RELAY) in now <==> CachePath(store, stem + RELAY) in files)
  {
    SuffixesSeparate(moved, stem);
    SuffixesSeparate(stem, moved);
  }

  /** At every intermediate state of the pass - so also where it crashes, and whatever the operating system
    * refuses along the way - every stem reads the same bytes, and the relayed capsules are the same. */
  lemma {:induction false} EveryPrefixKeepsReaders(files: Files, steps: seq<Step>, k: nat, store: string, stem: string)
    requires k <= |steps|
    ensures Resolved(AfterSteps(files, steps[..k]), store, stem) == Resolved(files, store, stem)
    ensures Relayed(AfterSteps(files, steps[..k]), store, stem) <==> Relayed(files, store, stem)
    ensures CachePath(store, stem + RELAY) in AfterSteps(files, steps[..k]) <==> CachePath(store, stem + RELAY) in files
  {
    if k == 0 {
    } else {
      EveryPrefixKeepsReaders(files, steps, k - 1, store, stem);
      assert steps[..k][..k - 1] == steps[..k - 1];
      StepKeepsReaders(AfterSteps(files, steps[..k - 1]), steps[k - 1], store, stem);
    }
  }

  /** In terms of keys: the holder of a capsule stays its holder, serving the same bytes, throughout. */
  lemma NoPrefixDropsAHolder(files: Files, steps: seq<Step>, k: nat, key: Key)
    requires k <= |steps|
    ensures var now := AfterSteps(files, steps[..k]);
      && (ResolveCachedPath(now, key) in now <==> ResolveCachedPath(files, key) in files)
      && (ResolveCachedPath(files, key) in files
          ==> now[ResolveCachedPath(now, key)] == files[ResolveCachedPath(files, key)])
  {
    EveryPrefixKeepsReaders(files, steps, k, key.store, key.root);
  }

  // ---------------------------------------------------------------------------------------------
  // What a completed pass reaches
  // ---------------------------------------------------------------------------------------------

  /** A pass that lists every legacy file of the disk and is obeyed every time. */
  ghost predicate Complete(files: Files, steps: seq<Step>) {
    && (forall p :: p in files && IsLegacy(p) ==> exists i :: 0 <= i < |steps| && steps[i].path == p)
    && (forall i :: 0 <= i < |steps| ==> steps[i].obeys)
  }

  function At(files: Files, p: CachePath): Option<Bytes> { if p in files then Some(files[p]) else None }

  /** What is left at a path once everything has moved. */
  ghost function ConvergedAt(files: Files, p: CachePath): Option<Bytes> {
    var stem := StripSuffix(p.name, CACHED);
    if IsLegacy(p) then None
    else if p in files || stem.None? || stem.value == "" then At(files, p)
    else At(files, CachePath(p.store, stem.value + LEGACY))
  }

  ghost predicate Listed(steps: seq<Step>, p: CachePath) { exists i :: 0 <= i < |steps| && steps[i].path == p }

  lemma ListedOneMore(steps: seq<Step>, p: CachePath)
    requires steps != []
    ensures Listed(steps, p) <==> Listed(steps[..|steps| - 1], p) || steps[|steps| - 1].path == p
  {
    var n := |steps| - 1;
    if Listed(steps[..n], p) {
      var i :| 0 <= i < n && steps[..n][i].path == p;
      assert steps[i].path == p;
    }
    if Listed(steps, p) && steps[n].path != p {
      var i :| 0 <= i < |steps| && steps[i].path == p;
      assert steps[..n][i].path == p;
    }
  }

  /** The fate of the two artifacts of one stem under an obeyed pass. */
  ghost predicate Moved(files: Files, now: Files, listed: bool, legacy: CachePath, unified: CachePath) {
    && At(now, legacy) == (if listed then None else At(files, legacy))
    && At(now, unified) == (if unified in files || !listed then At(files, unified) else At(files, legacy))
  }

  lemma {:induction false} StemFate(files: Files, steps: seq<Step>, store: string, stem: string)
    requires stem != "" && forall i :: 0 <= i < |steps| ==> steps[i].obeys
    ensures var legacy := CachePath(store, stem + LEGACY);
      Moved(files, AfterSteps(files, steps), Listed(steps, legacy), legacy, CachePath(store, stem + CACHED))
  {
    var legacy, unified := CachePath(store, stem + LEGACY), CachePath(store, stem + CACHED);
    SuffixesSeparate(stem, stem);
    if steps == [] {
    } else {
      var n := |steps| - 1;
      StemFate(files, steps[..n], store, stem);
      ListedOneMore(steps, legacy);
      var before := AfterSteps(files, steps[..n]);
      if steps[n].path != legacy {
        OtherStepKeeps(before, steps[n], store, stem);
      } else {
        ItsStepMoves(before, steps[n], store, stem);
      }
    }
  }

  /** The step that visits a legacy capsule and is obeyed. */
  lemma ItsStepMoves(files: Files, step: Step, store: string, stem: string)
    requires stem != "" && step == Step(CachePath(store, stem + LEGACY), true)
    ensures Moved(files, StepOn(files, step), true, CachePath(store, stem + LEGACY), CachePath(store, stem + CACHED))
  {
    SuffixesSeparate(stem, stem);
    StemsAreLegacy(store, stem);
  }

  lemma OtherStepKeeps(files: Files, step: Step, store: string, stem: string)
    requires step.path != CachePath(store, stem + LEGACY)
    ensures At(StepOn(files, step), CachePath(store, stem + LEGACY)) == At(files, CachePath(store, stem + LEGACY))
    ensures At(StepOn(files, step), CachePath(store, stem + CACHED)) == At(files, CachePath(store, stem + CACHED))
  {
    if IsLegacy(step.path) {
      LegacyIsAStem(step.path);
      var s :| HasLegacyStem(step.path, s) && Unified(step.path) == CachePath(step.path.store, s + CACHED);
      SuffixesSeparate(s, stem);
      SuffixesSeparate(stem, s);
    }
  }

  /** Every other file stays as it was. */
  lemma {:induction false} OthersStay(files: Files, steps: seq<Step>, p: CachePath)
    requires !IsLegacy(p) && (forall stem :: stem != "" ==> p.name != stem + CACHED)
    ensures At(AfterSteps(files, steps), p) == At(files, p)
  {
    if steps == [] {
    } else {
      var n := |steps| - 1;
      OthersStay(files, steps[..n], p);
      var step := steps[n];
      if IsLegacy(step.path) {
        LegacyIsAStem(step.path);
        var s :| HasLegacyStem(step.path, s) && Unified(step.path) == CachePath(step.path.store, s + CACHED);
        assert p.name != s + CACHED;
      }
    }
  }

  lemma ConvergedPath(files: Files, steps: seq<Step>, p: CachePath)
    requires Complete(files, steps)
    ensures At(AfterSteps(files, steps), p) == ConvergedAt(files, p)
  {
    var stem := StripSuffix(p.name, CACHED);
    if IsLegacy(p) {
      LegacyIsAStem(p);
      var s :| HasLegacyStem(p, s) && Unified(p) == CachePath(p.store, s + CACHED);
      StemFate(files, steps, p.store, s);
      if p in files { assert Listed(steps, p); }
    } else if stem.Some? && stem.value != "" {
      assert p == CachePath(p.store, stem.value + CACHED);
      StemFate(files, steps, p.store, stem.value);
      StemsAreLegacy(p.store, stem.value);
      var legacy := CachePath(p.store, stem.value + LEGACY);
      if legacy in files { assert Listed(steps, legacy); }
    } else {
      forall s | s != "" ensures p.name != s + CACHED { StripAppended(s, CACHED); }
      OthersStay(files, steps, p);
    }
  }

  lemma {:induction false} NothingLeftToDo(files: Files, steps: seq<Step>)
    requires forall p :: p in files ==> !IsLegacy(p)
    ensures AfterSteps(files, steps) == files
  {
    if steps == [] {
    } else {
      NothingLeftToDo(files, steps[..|steps| - 1]);
    }
  }

  /** A pass that lists and is obeyed throughout leaves no legacy file (a file called nothing but the legacy
    * suffix has no extension, and is not one), holds at every path exactly what the
    * converged cache holds there, in whatever order it visited the files, and any further pass - complete
    * or not - changes nothing. */
  lemma CompletedPassConverges(files: Files, steps: seq<Step>, again: seq<Step>)
    requires Complete(files, steps)
    ensures forall p :: At(AfterSteps(files, steps), p) == ConvergedAt(files, p)
    ensures forall p :: p in AfterSteps(files, steps) ==> !IsLegacy(p)
    ensures forall store, stem: string :: CachePath(store, stem + LEGACY) in AfterSteps(files, steps) ==> stem == ""
    ensures AfterSteps(AfterSteps(files, steps), again) == AfterSteps(files, steps)
  {
    var now := AfterSteps(files, steps);
    forall p ensures At(now, p) == ConvergedAt(files, p) { ConvergedPath(files, steps, p); }
    forall p | p in now ensures !IsLegacy(p) { assert At(now, p).Some? && At(now, p) == ConvergedAt(files, p); }
    forall store, stem: string | CachePath(store, stem + LEGACY) in now ensures stem == "" {
      StemsAreLegacy(store, stem);
    }
    NothingLeftToDo(now, again);
  }

  // ---------------------------------------------------------------------------------------------
  // From a listing to the converged disk
  // ---------------------------------------------------------------------------------------------

  /** The j-th entry of the i-th directory that could be read. */
  predicate ListedAt(stores: seq<StoreEntry>, i: nat, j: nat) {
    i < |stores| && stores[i].isDir && stores[i].listing.Some? && j < |stores[i].listing.value|
  }

  /** That entry is this step. */
  predicate StepListedAt(stores: seq<StoreEntry>, step: Step, i: nat, j: nat) {
    && ListedAt(stores, i, j)
    && step == Step(CachePath(stores[i].store, stores[i].listing.value[j].0), stores[i].listing.value[j].1)
  }

  /** The steps of a pass are exactly the entries of the directories that could be read. */
  lemma {:induction false} StepsAreTheEntries(stores: seq<StoreEntry>, step: Step)
    ensures step in StepsOf(stores) <==> exists i: nat, j: nat :: StepListedAt(stores, step, i, j)
  {
    if stores == [] {
    } else {
      var n := |stores| - 1;
      StepsAreTheEntries(stores[..n], step);
      forall i: nat, j: nat | i < n
        ensures StepListedAt(stores, step, i, j) <==> StepListedAt(stores[..n], step, i, j)
      {
        assert stores[..n][i] == stores[i];
      }
      StepsInAre(stores, step);
      assert stores[..|stores|] == stores;
      StepsOneMore(stores, n);
      if step in StepsOf(stores[..n]) {
        var i: nat, j: nat :| StepListedAt(stores[..n], step, i, j);
        assert StepListedAt(stores, step, i, j);
      }
    }
  }

  lemma StepsInAre(stores: seq<StoreEntry>, step: Step)
    requires stores != []
    ensures var n, s := |stores| - 1, stores[|stores| - 1];
      s.isDir && s.listing.Some? ==>
        (step in StepsIn(s.store, s.listing.value) <==> exists j: nat :: StepListedAt(stores, step, n, j))
  {
    var n, s := |stores| - 1, stores[|stores| - 1];
    if s.isDir && s.listing.Some? {
      var steps := StepsIn(s.store, s.listing.value);
      if step in steps {
        var j :| 0 <= j < |steps| && steps[j] == step;
        assert StepListedAt(stores, step, n, j);
      }
      if j: nat :| StepListedAt(stores, step, n, j) { assert steps[j] == step; }
    }
  }

  /** The listing has every file that is a non-empty stem with the legacy suffix. */
  ghost predicate ListsEveryLegacy(stores: seq<StoreEntry>, files: Files) {
    forall store, stem: string :: stem != "" && CachePath(store, stem + ".module") in files ==>
      exists i: nat, j: nat :: ListedAt(stores, i, j)
        && stores[i].store == store && stores[i].listing.value[j].0 == stem + ".module"
  }

  /** A pass over a full listing, never refused, exactly: every capsule ends under its current name and no longer under
    * the legacy one, with the bytes it had there, or with those of its legacy artifact if it had none; and every file
    * that is neither is as it was. */
  lemma AFullPassMovesEveryCapsule(files: Files, stores: seq<StoreEntry>, p: CachePath, stem: string)
    requires ListsEveryLegacy(stores, files)
    requires forall i: nat, j: nat :: ListedAt(stores, i, j) ==> stores[i].listing.value[j].1
    ensures var now := AfterSteps(files, StepsOf(stores));
      var legacy, current := CachePath(p.store, stem + ".module"), CachePath(p.store, stem + ".dig");
      && (stem != "" ==>
            && legacy !in now
            && (current in now <==> current in files || legacy in files)
            && (current in files ==> now[current] == files[current])
            && (current !in files && legacy in files ==> now[current] == files[legacy]))
      && ((forall s: string :: s != "" ==> p.name != s + ".module" && p.name != s + ".dig") ==>
            (p in now <==> p in files) && (p in files ==> now[p] == files[p]))
  {
    var steps := StepsOf(stores);
    assert forall i :: 0 <= i < |steps| ==> steps[i].obeys by { EveryStepIsObeyed(stores); }
    var legacy, current := CachePath(p.store, stem + LEGACY), CachePath(p.store, stem + CACHED);
    var now := AfterSteps(files, steps);
    if stem != "" {
      StemFate(files, steps, p.store, stem);
      if legacy in files { LegacyIsAmongTheSteps(stores, files, p.store, stem); }
      assert At(now, legacy) == None;
      assert At(now, current) == if current in files then At(files, current) else At(files, legacy);
    }
    if forall s: string :: s != "" ==> p.name != s + ".module" && p.name != s + ".dig" {
      if IsLegacy(p) {
        LegacyIsAStem(p);
        assert false;
      } else {
        OthersStay(files, steps, p);
        assert At(now, p) == At(files, p);
      }
    }
  }

  lemma EveryStepIsObeyed(stores: seq<StoreEntry>)
    requires forall i: nat, j: nat :: ListedAt(stores, i, j) ==> stores[i].listing.value[j].1
    ensures forall k :: 0 <= k < |StepsOf(stores)| ==> StepsOf(stores)[k].obeys
  {
    forall k | 0 <= k < |StepsOf(stores)| ensures StepsOf(stores)[k].obeys {
      StepsAreTheEntries(stores, StepsOf(stores)[k]);
      var i: nat, j: nat :| StepListedAt(stores, StepsOf(stores)[k], i, j);
      assert ListedAt(stores, i, j);
    }
  }

  lemma LegacyIsAmongTheSteps(stores: seq<StoreEntry>, files: Files, store: string, stem: string)
    requires ListsEveryLegacy(stores, files) && stem != "" && CachePath(store, stem + ".module") in files
    ensures Listed(StepsOf(stores), CachePath(store, stem + ".module"))
  {
    var i: nat, j: nat :| ListedAt(stores, i, j)
      && stores[i].store == store && stores[i].listing.value[j].0 == stem + ".module";
    var step := Step(CachePath(store, stem + ".module"), stores[i].listing.value[j].1);
    assert StepListedAt(stores, step, i, j);
    StepsAreTheEntries(stores, step);
    var k :| 0 <= k < |StepsOf(stores)| && StepsOf(stores)[k] == step;
    assert StepsOf(stores)[k].path == step.path;
  }

  /** What parses, exactly: two texts of sixty-four hex digits each, in any casing. */
  lemma ParsesExactlyWhen(store: string, root: string)
    ensures Parse(store, root).Some?
      <==> && |store| == 64 && (forall i :: 0 <= i < |store| ==> store[i] in "0123456789abcdefABCDEF")
           && |root| == 64 && (forall i :: 0 <= i < |root| ==> root[i] in "0123456789abcdefABCDEF")
  {
    forall c ensures IsHexDigit(c) <==> c in "0123456789abcdefABCDEF" { HexDigits(c); }
  }

  lemma HexDigits(c: char)
    ensures IsHexDigit(c) <==> c in "0123456789abcdefABCDEF"
  {
    var digits := "0123456789abcdefABCDEF";
    assert |digits| == 22;
    if '0' <= c <= '9' { assert digits[c as nat - '0' as nat] == c; }
    if 'a' <= c <= 'f' { assert digits[c as nat - 'a' as nat + 10] == c; }
    if 'A' <= c <= 'F' { assert digits[c as nat - 'A' as nat + 16] == c; }
  }
}
