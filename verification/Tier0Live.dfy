/** The live side of speculative precaching: resolve a sampled key to a capsule, pass the chain-anchor gate,
  * pull under a byte cap, tag the store as the sacrificial tier, and sweep the cache.
  *
  * The network, the chain and the eviction sweep are a `World`: the answer each successive call would get. A
  * `World` is arbitrary, so whatever is proved holds against every behaviour of peers, chain and disk. */
module Tier0Live {
  import opened Common

  type StoreId = nat

  datatype Preimage = Preimage(store: StoreId, root: nat, sizeBytes: nat)

  /** How one capped pull ended. */
  datatype WarmOutcome = Held(bytes: nat) | AlreadyHeld | RefusedNoChainAnchor | RefusedOther | AlreadyWarming

  datatype WarmVerdict = VerdictCached(bytes: nat) | OverCap | NotAnchored | VerdictUnavailable

  datatype DiscardReason = ExceededByteCap | VerifyFailed | Unavailable

  datatype FetchOutcome = Cached(bytes: nat) | Discarded(reason: DiscardReason)

  /** Reads a pull's outcome under the cap it was given. */
  function Verdict(o: WarmOutcome, maxBytes: nat): WarmVerdict {
    match o
    case Held(bytes) => if bytes <= maxBytes then VerdictCached(bytes) else OverCap
    case AlreadyHeld => VerdictCached(0)
    case RefusedNoChainAnchor => NotAnchored
    case RefusedOther => VerdictUnavailable
    case AlreadyWarming => VerdictUnavailable
  }

  /** The answers the n-th lookup, the n-th anchor check and the n-th pull will get, and the stores whose tags
    * the n-th eviction sweep forgets. */
  datatype World = World(lookup: nat -> Option<Preimage>, anchored: nat -> bool, warm: nat -> WarmOutcome,
                         sweep: nat -> set<StoreId>)

  /** Calls made so far, and the stores tagged as precache lands. */
  datatype FetchState = FetchState(lookups: nat, gates: nat, warms: nat, sweeps: nat, tagged: set<StoreId>)

  const NO_CALLS := FetchState(0, 0, 0, 0, {})

  /** One governed fetch. */
  function Fetch(w: World, s: FetchState, maxBytes: nat): (FetchState, FetchOutcome) {
    var s1 := s.(lookups := s.lookups + 1);
    match w.lookup(s.lookups)
    case None => (s1, Discarded(Unavailable))
    case Some(p) =>
      var s2 := s1.(gates := s.gates + 1);
      if !w.anchored(s.gates) then (s2, Discarded(VerifyFailed)) else
        var s3 := s2.(warms := s.warms + 1);
        match Verdict(w.warm(s.warms), maxBytes)
        case VerdictCached(bytes) =>
          (s3.(tagged := s.tagged + {p.store} - w.sweep(s.sweeps), sweeps := s.sweeps + 1), Cached(bytes))
        case OverCap => (s3, Discarded(ExceededByteCap))
        case NotAnchored => (s3, Discarded(VerifyFailed))
        case VerdictUnavailable => (s3, Discarded(Unavailable))
  }

  /** The next fetch gets as far as pulling: its key resolves and its root is anchored. */
  predicate Pulls(w: World, s: FetchState) { w.lookup(s.lookups).Some? && w.anchored(s.gates) }

  /** The next fetch puts a capsule on disk, and how many bytes of it. */
  predicate Lands(w: World, s: FetchState) { Pulls(w, s) && w.warm(s.warms).Held? }

  function LandedBytes(w: World, s: FetchState): nat { if Lands(w, s) then w.warm(s.warms).bytes else 0 }

  /** The next fetch tags its store, and sweeps. */
  predicate Tags(w: World, s: FetchState, maxBytes: nat) { Fetch(w, s, maxBytes).0.sweeps > s.sweeps }

  /** The contract the round loop relies on, met against any world: bytes reported never exceed the cap and are
    * what landed unless that was over it, a pull runs only behind a passed anchor check, and the ledger gains
    * the store exactly when the fetch reports it cached, less whatever the sweep then forgets. */
  lemma FetchHonoursItsContract(w: World, s: FetchState, maxBytes: nat)
    ensures var (s', o) := Fetch(w, s, maxBytes);
      && (o.Cached? ==> o.bytes <= maxBytes && o.bytes == LandedBytes(w, s))
      && (o.Discarded? ==> !Lands(w, s) || LandedBytes(w, s) > maxBytes)
      && (s'.warms > s.warms <==> Pulls(w, s))
      && (Tags(w, s, maxBytes) <==> o.Cached?)
      && s'.tagged == (if o.Cached? then s.tagged + {w.lookup(s.lookups).value.store} - w.sweep(s.sweeps) else s.tagged)
      && s'.lookups == s.lookups + 1 && s'.gates <= s.gates + 1 && s'.warms <= s.warms + 1
  {
    match w.lookup(s.lookups)
    case None =>
    case Some(p) =>
      match w.warm(s.warms)
      case Held(bytes) =>
      case _ =>
  }

  /** How a fetch ends, exactly, by what the network, the chain and the pull answer it. */
  lemma FetchEndsExactlyAs(w: World, s: FetchState, maxBytes: nat)
    ensures var o := Fetch(w, s, maxBytes).1;
      var resolved := w.lookup(s.lookups).Some?;
      var pulled, pull := resolved && w.anchored(s.gates), w.warm(s.warms);
      && (forall n: nat :: o == Cached(n) <==>
            pulled && ((pull == Held(n) && n <= maxBytes) || (pull.AlreadyHeld? && n == 0)))
      && (o == Discarded(ExceededByteCap) <==> pulled && pull.Held? && pull.bytes > maxBytes)
      && (o == Discarded(VerifyFailed) <==> resolved && (!w.anchored(s.gates) || pull.RefusedNoChainAnchor?))
      && (o == Discarded(Unavailable) <==> !resolved || (pulled && (pull.RefusedOther? || pull.AlreadyWarming?)))
  {
    match w.lookup(s.lookups)
    case None =>
    case Some(p) =>
      match w.warm(s.warms)
      case Held(bytes) =>
      case _ =>
  }

  /** The ledger is meant to record what the loop landed. It parts from that in two ways, and no other: a store
    * is tagged with nothing landed exactly when the gated pull finds it already held, and a land goes untagged
    * exactly when it is over the cap. */
  lemma TagsAreLandsExactlyWhen(w: World, s: FetchState, maxBytes: nat)
    ensures Tags(w, s, maxBytes) && !Lands(w, s) <==> Pulls(w, s) && w.warm(s.warms) == AlreadyHeld
    ensures Lands(w, s) && !Tags(w, s, maxBytes)
      <==> Pulls(w, s) && w.warm(s.warms).Held? && w.warm(s.warms).bytes > maxBytes
  {
    match w.lookup(s.lookups)
    case None =>
    case Some(p) =>
      match w.warm(s.warms)
      case Held(bytes) =>
      case _ =>
  }

  /** So a store this node holds for its own demand becomes sacrificial: found already held, it is reported as
    * cached with no bytes and carries the tag it did not have, unless the sweep forgets it at once. */
  lemma AnAlreadyHeldStoreIsTagged(w: World, s: FetchState, maxBytes: nat, store: StoreId)
    requires Pulls(w, s) && w.warm(s.warms) == AlreadyHeld && w.lookup(s.lookups).value.store == store
    requires store !in s.tagged && store !in w.sweep(s.sweeps)
    ensures store in Fetch(w, s, maxBytes).0.tagged && Fetch(w, s, maxBytes).1 == Cached(0) && LandedBytes(w, s) == 0
  {
  }

  class NodeTier0Fetcher {
    const world: World
    var lookups: nat
    var gates: nat
    var warms: nat
    var sweeps: nat
    var tagged: set<StoreId>

    ghost function State(): FetchState
      reads this
    {
      FetchState(lookups, gates, warms, sweeps, tagged)
    }

    constructor (world: World)
      ensures this.world == world && State() == NO_CALLS
    {
      this.world := world;
      lookups, gates, warms, sweeps, tagged := 0, 0, 0, 0, {};
    }

    method FetchAndCache(maxBytes: nat) returns (outcome: FetchOutcome)
      modifies this
      ensures (State(), outcome) == Fetch(world, old(State()), maxBytes)
    {
      var found := world.lookup(lookups);
      lookups := lookups + 1;
      if found.None? {
        return Discarded(Unavailable);
      }
      var anchored := world.anchored(gates);
      gates := gates + 1;
      if !anchored {
        return Discarded(VerifyFailed);
      }
      var verdict := Verdict(world.warm(warms), maxBytes);
      warms := warms + 1;
      match verdict
      case VerdictCached(bytes) =>
        tagged := tagged + {found.value.store};
        EvictIfNeeded();
        outcome := Cached(bytes);
      case OverCap => outcome := Discarded(ExceededByteCap);
      case NotAnchored => outcome := Discarded(VerifyFailed);
      case VerdictUnavailable => outcome := Discarded(Unavailable);
    }

    /** The modules-cache sweep, as far as the ledger sees it: some tags are forgotten. */
    method EvictIfNeeded()
      modifies this`sweeps, this`tagged
      ensures State() == old(State()).(tagged := old(tagged) - world.sweep(old(sweeps)), sweeps := old(sweeps) + 1)
    {
      tagged := tagged - world.sweep(sweeps);
      sweeps := sweeps + 1;
    }

    method ForgetLand(store: StoreId)
      modifies this`tagged
      ensures State() == old(State()).(tagged := old(tagged) - {store})
    {
      tagged := tagged - {store};
    }
  }
}
