/** The stereo duplex encoder node's pairing of reads: the two id maps built
    at construction, the pending-partner cache each incoming read is matched
    against, and the count of active workers whose last exit terminates the
    downstream sink.  Workers are modelled one read at a time; the locks of
    the source only make each lookup-and-update atomic, which a single step
    here already is. */
module DuplexPairing {
  import opened Common
  import opened StereoEncode

  /** The node's lookup maps: template id to complement id, as given, and
      complement id to template id, built from it. */
  datatype PairMaps = PairMaps(
    templateToComplement: map<string, string>,
    complementToTemplate: map<string, string>)

  /** Entries of a template-to-complement map in its iteration order. */
  type Entries = seq<(string, string)>

  predicate DistinctKeys(entries: Entries)
  {
    forall i, j :: 0 <= i < j < |entries| ==> entries[i].0 != entries[j].0
  }

  predicate DistinctValues(entries: Entries)
  {
    forall i, j :: 0 <= i < j < |entries| ==> entries[i].1 != entries[j].1
  }

  /** No id is both a template and a complement. */
  predicate DisjointRoles(entries: Entries)
  {
    forall i, j :: 0 <= i < |entries| && 0 <= j < |entries| ==> entries[i].0 != entries[j].1
  }

  /** The map the entries describe. */
  function ForwardMap(entries: Entries): (m: map<string, string>)
    requires DistinctKeys(entries)
    ensures forall i :: 0 <= i < |entries| ==> entries[i].0 in m && m[entries[i].0] == entries[i].1
    ensures forall k :: k in m ==> exists i :: 0 <= i < |entries| && entries[i].0 == k
  {
    if entries == [] then map[]
    else
      var last := entries[|entries| - 1];
      ForwardMap(entries[..|entries| - 1])[last.0 := last.1]
  }

  /** The constructor's reverse map: each value maps to a key it came from;
      when several keys share a value, the one iterated last wins. */
  function ReverseMap(entries: Entries): (m: map<string, string>)
    ensures forall i :: 0 <= i < |entries| ==> entries[i].1 in m
    ensures forall v :: v in m ==> exists i :: 0 <= i < |entries| && entries[i] == (m[v], v)
  {
    if entries == [] then map[]
    else
      var last := entries[|entries| - 1];
      var m := ReverseMap(entries[..|entries| - 1])[last.1 := last.0];
      assert forall i :: 0 <= i < |entries| - 1 ==> entries[..|entries| - 1][i] == entries[i];
      m
  }

  /** When several keys share a value, the reverse map keeps the key of
      the last such entry. */
  lemma {:induction false} ReverseMapLastWins(entries: Entries, i: nat)
    requires i < |entries|
    requires forall j :: i < j < |entries| ==> entries[j].1 != entries[i].1
    ensures ReverseMap(entries)[entries[i].1] == entries[i].0
  {
    if i < |entries| - 1 {
      var prefix := entries[..|entries| - 1];
      assert prefix[i] == entries[i];
      ReverseMapLastWins(prefix, i);
    }
  }

  /** The node's constructor: keep the given map and build its reverse. */
  function BuildPairMaps(entries: Entries): (pm: PairMaps)
    requires DistinctKeys(entries)
    ensures forall v :: v in pm.complementToTemplate ==>
              var t := pm.complementToTemplate[v];
              t in pm.templateToComplement && pm.templateToComplement[t] == v
    ensures forall t :: t in pm.templateToComplement ==> pm.templateToComplement[t] in pm.complementToTemplate
  {
    PairMaps(ForwardMap(entries), ReverseMap(entries))
  }

  /** With distinct values the two maps are exact inverses of each other,
      in both directions. */
  lemma {:induction false} BuiltMapsAreInverse(entries: Entries, t: string, c: string)
    requires DistinctKeys(entries) && DistinctValues(entries)
    ensures var pm := BuildPairMaps(entries);
            (t in pm.templateToComplement && pm.templateToComplement[t] == c)
              <==> (c in pm.complementToTemplate && pm.complementToTemplate[c] == t)
  {
    var pm := BuildPairMaps(entries);
    if c in pm.complementToTemplate && pm.complementToTemplate[c] == t {
      assert t in pm.templateToComplement && pm.templateToComplement[t] == c;
    }
    if t in pm.templateToComplement && pm.templateToComplement[t] == c {
      var i :| 0 <= i < |entries| && entries[i].0 == t;
      assert entries[i].1 == c;
      var t' := pm.complementToTemplate[c];
      var k :| 0 <= k < |entries| && entries[k] == (t', c);
      assert k == i;
    }
  }

  // -------------------------------------------------------------- lookups

  datatype Role = Template | Complement

  /** A read's partner id and the role the read plays in its pair. */
  datatype Partner = Partner(id: string, role: Role)

  /** The template map is tried first, then the reverse map; a read in
      neither has no partner. */
  function FindPartner(pm: PairMaps, id: string): (r: Option<Partner>)
    ensures r.Some? && r.value.role == Template <==> id in pm.templateToComplement
    ensures r.None? <==> id !in pm.templateToComplement && id !in pm.complementToTemplate
    ensures r.Some? ==> r.value.id == if r.value.role == Template
                                      then pm.templateToComplement[id]
                                      else pm.complementToTemplate[id]
  {
    if id in pm.templateToComplement then Some(Partner(pm.templateToComplement[id], Template))
    else if id in pm.complementToTemplate then Some(Partner(pm.complementToTemplate[id], Complement))
    else None
  }

  function Opposite(role: Role): Role
  {
    if role == Template then Complement else Template
  }

  /** Every paired id's partner is paired back with it, in the other role. */
  ghost predicate Consistent(pm: PairMaps)
  {
    forall id :: FindPartner(pm, id).Some? ==>
      var p := FindPartner(pm, id).value;
      FindPartner(pm, p.id) == Some(Partner(id, Opposite(p.role)))
  }

  /** Maps built from distinct keys and values, with no id in both roles,
      pair every id back with its partner. */
  lemma BuiltMapsConsistent(entries: Entries)
    requires DistinctKeys(entries) && DistinctValues(entries) && DisjointRoles(entries)
    ensures Consistent(BuildPairMaps(entries))
  {
    var pm := BuildPairMaps(entries);
    forall id | FindPartner(pm, id).Some?
      ensures FindPartner(pm, FindPartner(pm, id).value.id)
              == Some(Partner(id, Opposite(FindPartner(pm, id).value.role)))
    {
      var p := FindPartner(pm, id).value;
      if p.role == Template {
        BuiltMapsAreInverse(entries, id, p.id);
        var i :| 0 <= i < |entries| && entries[i].0 == id;
        var j :| 0 <= j < |entries| && entries[j] == (pm.complementToTemplate[p.id], p.id);
        assert p.id !in pm.templateToComplement;
      } else {
        var t := p.id;
        BuiltMapsAreInverse(entries, t, id);
      }
    }
  }

  // ---------------------------------------------------------------- cache

  /** The pending-partner cache: read id to the read waiting for its
      partner. */
  type Cache = map<string, SimplexRead>

  /** The outcome of one read's lookup: the cache afterwards and, when the
      partner was waiting, the pair in template-complement order. */
  datatype Routing = Routing(cache: Cache, pair: Option<(SimplexRead, SimplexRead)>)

  /** One read's lookup.  A read with no partner changes nothing.  A read
      whose partner is not cached is cached under its id.  Otherwise the
      partner leaves the cache and the two are paired, the read's role
      deciding the order. */
  function Route(pm: PairMaps, cache: Cache, read: SimplexRead): (r: Routing)
    ensures FindPartner(pm, read.id).None? ==> r == Routing(cache, None)
    ensures FindPartner(pm, read.id).Some? && FindPartner(pm, read.id).value.id !in cache ==>
              r == Routing(cache[read.id := read], None)
    ensures r.pair.Some? <==> FindPartner(pm, read.id).Some? && FindPartner(pm, read.id).value.id in cache
    ensures r.pair.Some? ==>
              var p := FindPartner(pm, read.id).value;
              && r.cache == cache - {p.id}
              && r.pair.value == if p.role == Template then (read, cache[p.id]) else (cache[p.id], read)
  {
    match FindPartner(pm, read.id)
    case None => Routing(cache, None)
    case Some(p) =>
      if p.id !in cache then Routing(cache[read.id := read], None)
      else
        var partner := cache[p.id];
        var pair := if p.role == Template then (read, partner) else (partner, read);
        Routing(cache - {p.id}, Some(pair))
  }

  /** Every cached read is stored under its own id, has a partner, and that
      partner is not cached with it. */
  predicate CacheInvariant(pm: PairMaps, cache: Cache)
  {
    forall id :: id in cache ==>
      && cache[id].id == id
      && FindPartner(pm, id).Some?
      && FindPartner(pm, id).value.id !in cache
  }

  /** A lookup keeps the cache invariant when the maps are consistent. */
  lemma RoutePreservesCacheInvariant(pm: PairMaps, cache: Cache, read: SimplexRead)
    requires Consistent(pm) && CacheInvariant(pm, cache)
    ensures CacheInvariant(pm, Route(pm, cache, read).cache)
  {
    var after := Route(pm, cache, read).cache;
    if FindPartner(pm, read.id).Some? && FindPartner(pm, read.id).value.id !in cache {
      var p := FindPartner(pm, read.id).value;
      assert FindPartner(pm, p.id) == Some(Partner(read.id, Opposite(p.role)));
      forall id | id in after
        ensures FindPartner(pm, id).Some? && FindPartner(pm, id).value.id !in after
      {
        if id != read.id {
          var q := FindPartner(pm, id).value;
          assert FindPartner(pm, q.id) == Some(Partner(id, Opposite(q.role)));
        }
      }
    }
  }

  /** When a pair's two reads arrive one after the other, in either order,
      and neither was cached, the second arrival yields the pair in
      template-complement order and neither read stays cached. */
  lemma BothArrivalsEmptyTheCache(pm: PairMaps, cache: Cache, t: SimplexRead, c: SimplexRead)
    requires Consistent(pm)
    requires FindPartner(pm, t.id) == Some(Partner(c.id, Template))
    requires t.id !in cache && c.id !in cache
    ensures var first := Route(pm, cache, t);
            var second := Route(pm, first.cache, c);
            && first.pair.None? && second.pair == Some((t, c))
            && t.id !in second.cache && c.id !in second.cache
    ensures var first := Route(pm, cache, c);
            var second := Route(pm, first.cache, t);
            && first.pair.None? && second.pair == Some((t, c))
            && t.id !in second.cache && c.id !in second.cache
  {
    assert FindPartner(pm, c.id) == Some(Partner(t.id, Complement));
    assert t.id != c.id;
  }

  // --------------------------------------------------------------- worker

  /** The worker after one read: it carries on with the cache afterwards
      and the reads it pushed downstream, or the process has ended because
      the encoder left its bounds on a pair (a bounds-checked read that
      throws out of the worker thread, or an unchecked read past the end of
      a buffer). */
  datatype Handled = Continued(cache: Cache, emitted: seq<StereoRead>) | Halted

  /** One read through the worker: look it up, and when its partner was
      waiting, encode the pair outside the cache and push the stereo read
      downstream when the encoder produced one.  The worker halts exactly on
      a pair the encoder faults on; otherwise the cache is the lookup's, and
      a read is pushed exactly when a pair formed and passed both gates: a
      single read named after the pair and as wide as its walk. */
  method HandleRead(pm: PairMaps, cache: Cache, read: SimplexRead,
                    align: (SimplexRead, SimplexRead) -> Alignment)
    returns (out: Handled)
    ensures out.Halted? <==>
              var pair := Route(pm, cache, read).pair;
              pair.Some? && EncodeFaults(pair.value.0, pair.value.1, align(pair.value.0, pair.value.1))
    ensures out.Continued? ==> out.cache == Route(pm, cache, read).cache
    ensures out.Continued? ==>
              var pair := Route(pm, cache, read).pair;
              (out.emitted != [] <==>
                 pair.Some?
                 && !LengthGateFails(|pair.value.0.bases|, |pair.value.1.bases|)
                 && ConsensusPossible(align(pair.value.0, pair.value.1)))
    ensures out.Continued? && out.emitted != [] ==>
              var (t, c) := Route(pm, cache, read).pair.value;
              && |out.emitted| == 1
              && out.emitted[0].id == t.id + ";" + c.id
              && EncodedCursors(t, c, align(t, c)).Some?
              && Shaped(out.emitted[0].features, EncodedCursors(t, c, align(t, c)).value.global)
              && out.emitted[0].features == EncodedFeatures(t, c, align(t, c))
  {
    var routed := Route(pm, cache, read);
    if routed.pair.None? {
      return Continued(routed.cache, []);
    }
    var (t, c) := routed.pair.value;
    var encoded := Encode(t, c, align(t, c));
    match encoded
    case Ok(stereo) => return Continued(routed.cache, [stereo]);
    case Err(Fault) => return Halted;
    case Err(_) => return Continued(routed.cache, []);
  }

  // ------------------------------------------------------------ lifecycle

  /** The node's count of running workers and the terminations its workers
      have sent downstream. */
  datatype Lifecycle = Lifecycle(activeWorkers: nat, sinkTerminations: nat)

  /** A worker finds its queue closed and exits: it decrements the count,
      and terminates the sink only when it was the last. */
  function WorkerExit(l: Lifecycle): (l': Lifecycle)
    requires l.activeWorkers > 0
    ensures l'.activeWorkers == l.activeWorkers - 1
    ensures l'.sinkTerminations == l.sinkTerminations + (if l'.activeWorkers == 0 then 1 else 0)
  {
    var remaining := l.activeWorkers - 1;
    Lifecycle(remaining, if remaining == 0 then l.sinkTerminations + 1 else l.sinkTerminations)
  }

  /** `k` workers exiting one after another. */
  function Exits(l: Lifecycle, k: nat): Lifecycle
    requires k <= l.activeWorkers
    decreases k
  {
    if k == 0 then l else Exits(WorkerExit(l), k - 1)
  }

  /** Of `a` running workers, `k` exiting leave `a - k` running and have
      terminated the sink once if they were all of them, otherwise not. */
  lemma {:induction false} ExitsTerminateOnlyAtLast(l: Lifecycle, k: nat)
    requires 0 < k <= l.activeWorkers
    decreases k
    ensures Exits(l, k).activeWorkers == l.activeWorkers - k
    ensures Exits(l, k).sinkTerminations
            == l.sinkTerminations + (if k == l.activeWorkers then 1 else 0)
  {
    if k > 1 {
      ExitsTerminateOnlyAtLast(WorkerExit(l), k - 1);
    }
  }

  /** All of a node's workers exiting terminate its sink exactly once. */
  lemma AllWorkersTerminateSinkOnce(workers: nat)
    requires workers > 0
    ensures Exits(Lifecycle(workers, 0), workers) == Lifecycle(0, 1)
  {
    ExitsTerminateOnlyAtLast(Lifecycle(workers, 0), workers);
  }
}
