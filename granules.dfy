/** The granule record (src/types.ts, extended with the optional fields the
    durable store writes) and the contract both store implementations share:
    the guards of claim, release and complete, the effect of each on one
    record, the staleness test, and the listing in insertion order. */
module Granules {
  import opened Text

  datatype GranuleClass =
    | Explore       // understand the codebase or context
    | Plan          // design an implementation approach
    | Implement     // write or modify code
    | Test          // write or run tests
    | Review        // critique another worker's output
    | Consolidate   // merge work from several workers
    | Implemented   // exit marker: its content is the final report

  /** The class names as the system spells them. */
  function ClassName(c: GranuleClass): string {
    match c
    case Explore => "explore"
    case Plan => "plan"
    case Implement => "implement"
    case Test => "test"
    case Review => "review"
    case Consolidate => "consolidate"
    case Implemented => "Implemented"
  }

  datatype GranuleState = Unclaimed | Claimed | Completed

  /** A granule. Optional fields of the record are `Option`s; `None` is an
      absent (undefined) field. */
  datatype Granule = Granule(
    id: string,
    kind: GranuleClass,
    content: string,
    contentHash: Option<string>,
    state: GranuleState,
    claimedBy: Option<string>,
    claimedAt: Option<int>,
    createdAt: int,
    completedAt: Option<int>,
    summary: Option<string>,
    retryCount: Option<int>,
    lastError: Option<string>)

  /** Granule ids are "G-" followed by the value of the store's counter. */
  function GranuleId(n: int): string {
    Numbered("G-", n)
  }

  /** A freshly created granule: unclaimed, with no owner, no completion
      and no retry history. */
  function NewGranule(id: string, kind: GranuleClass, content: string,
                      contentHash: Option<string>, now: int): Granule
  {
    Granule(id, kind, content, contentHash, Unclaimed, None, None, now, None, None, None, None)
  }

  // ---------------------------------------------------------------------
  // Guards
  // ---------------------------------------------------------------------

  /** claim succeeds exactly on a known, unclaimed granule. */
  predicate Claimable(granules: map<string, Granule>, id: string) {
    id in granules && granules[id].state == Unclaimed
  }

  /** release and complete succeed exactly for the worker holding the claim. */
  predicate HeldBy(granules: map<string, Granule>, id: string, workerId: string) {
    id in granules && granules[id].state == Claimed && granules[id].claimedBy == Some(workerId)
  }

  // ---------------------------------------------------------------------
  // Effects on one record
  // ---------------------------------------------------------------------

  function ClaimedBy(g: Granule, workerId: string, now: int): Granule {
    g.(state := Claimed, claimedBy := Some(workerId), claimedAt := Some(now))
  }

  /** Back to unclaimed with both owner fields cleared; used by release and
      by stale-claim reclamation. */
  function Released(g: Granule): Granule {
    g.(state := Unclaimed, claimedBy := None, claimedAt := None)
  }

  /** Completion keeps the owner fields and replaces the summary only when
      one is given. */
  function CompletedAt(g: Granule, now: int, summary: Option<string>): Granule {
    g.(state := Completed, completedAt := Some(now),
       summary := if summary.Some? then summary else g.summary)
  }

  /** A claim is stale when it is older than maxAgeMs, strictly. */
  predicate IsStale(g: Granule, now: int, maxAgeMs: int) {
    g.state == Claimed && g.claimedAt.Some? && now - g.claimedAt.value > maxAgeMs
  }

  function ReleasedIfStale(g: Granule, now: int, maxAgeMs: int): Granule {
    if IsStale(g, now, maxAgeMs) then Released(g) else g
  }

  /** `retryCount ?? 0`. */
  function RetriesOf(g: Granule): int {
    if g.retryCount.Some? then g.retryCount.value else 0
  }

  /** The owner fields of a record agree with its state: no owner exactly
      when unclaimed, and an owner exactly when there is a claim time.
      (A completed granule keeps its owner.) */
  predicate OwnerFieldsConsistent(g: Granule) {
    && (g.state == Unclaimed <==> g.claimedBy.None?)
    && (g.claimedBy.Some? <==> g.claimedAt.Some?)
  }

  lemma TransitionsKeepOwnerFieldsConsistent(g: Granule, workerId: string, now: int, summary: Option<string>)
    requires OwnerFieldsConsistent(g)
    ensures OwnerFieldsConsistent(ClaimedBy(g, workerId, now))
    ensures OwnerFieldsConsistent(Released(g))
    ensures g.state == Claimed ==> OwnerFieldsConsistent(CompletedAt(g, now, summary))
  {
  }

  /** Releasing a claim undoes it: an unclaimed record with consistent
      owner fields comes back exactly as it was. */
  lemma ReleaseUndoesClaim(g: Granule, workerId: string, now: int)
    requires g.state == Unclaimed && OwnerFieldsConsistent(g)
    ensures Released(ClaimedBy(g, workerId, now)) == g
  {
  }

  // ---------------------------------------------------------------------
  // The collection: a map plus its insertion order
  // ---------------------------------------------------------------------

  predicate Distinct<T(==)>(s: seq<T>) {
    forall i, j :: 0 <= i < j < |s| ==> s[i] != s[j]
  }

  /** `order` lists the keys of `granules` once each, in insertion order, and
      every record is filed under its own id. */
  predicate Indexed(granules: map<string, Granule>, order: seq<string>) {
    && (forall id :: id in granules ==> id in order)
    && (forall id :: id in order ==> id in granules)
    && Distinct(order)
    && (forall id :: id in granules ==> granules[id].id == id)
  }

  /** Array.from(map.values()): the records in insertion order. */
  function Listing(granules: map<string, Granule>, order: seq<string>): seq<Granule>
    requires forall id :: id in order ==> id in granules
  {
    seq(|order|, k requires 0 <= k < |order| => granules[order[k]])
  }

  /** No two records of the list share an id. */
  predicate DistinctIds(gs: seq<Granule>) {
    forall i, j :: 0 <= i < j < |gs| ==> gs[i].id != gs[j].id
  }

  /** The filter of getStaleClaims, keeping list order. */
  function StaleAmong(gs: seq<Granule>, now: int, maxAgeMs: int): (r: seq<Granule>)
    ensures |r| <= |gs|
    ensures forall g :: g in r <==> g in gs && IsStale(g, now, maxAgeMs)
    decreases |gs|
  {
    if gs == [] then []
    else
      var rest := StaleAmong(gs[1..], now, maxAgeMs);
      if IsStale(gs[0], now, maxAgeMs) then [gs[0]] + rest else rest
  }

  /** Filtering a list whose ids are distinct leaves ids that are distinct. */
  lemma {:induction false} StaleAmongDistinct(gs: seq<Granule>, now: int, maxAgeMs: int)
    requires DistinctIds(gs)
    ensures DistinctIds(StaleAmong(gs, now, maxAgeMs))
    decreases |gs|
  {
    if gs != [] {
      var tail := gs[1..];
      assert DistinctIds(tail) by {
        forall i, j | 0 <= i < j < |tail|
          ensures tail[i].id != tail[j].id
        {
          assert tail[i] == gs[i + 1] && tail[j] == gs[j + 1];
        }
      }
      StaleAmongDistinct(tail, now, maxAgeMs);
      var rest := StaleAmong(tail, now, maxAgeMs);
      if IsStale(gs[0], now, maxAgeMs) {
        forall k | 0 <= k < |rest|
          ensures rest[k].id != gs[0].id
        {
          assert rest[k] in tail;
          var j :| 0 <= j < |tail| && tail[j] == rest[k];
          assert tail[j] == gs[j + 1];
        }
        var r := [gs[0]] + rest;
        forall i, j | 0 <= i < j < |r|
          ensures r[i].id != r[j].id
        {
          assert r[j] == rest[j - 1];
          if i > 0 {
            assert r[i] == rest[i - 1];
          }
        }
      }
    }
  }

  /** Of an indexed collection, the stale filter of the listing holds exactly
      the stale records, each of them the record filed under its id. */
  lemma StaleListing(granules: map<string, Granule>, order: seq<string>, now: int, maxAgeMs: int)
    requires Indexed(granules, order)
    ensures var stale := StaleAmong(Listing(granules, order), now, maxAgeMs);
      && (forall id :: id in granules ==> (granules[id] in stale <==> IsStale(granules[id], now, maxAgeMs)))
      && (forall g :: g in stale ==> g.id in granules && granules[g.id] == g)
      && DistinctIds(stale)
  {
    var list := Listing(granules, order);
    assert DistinctIds(list) by {
      forall i, j | 0 <= i < j < |list|
        ensures list[i].id != list[j].id
      {
        assert list[i].id == order[i] && list[j].id == order[j];
      }
    }
    StaleAmongDistinct(list, now, maxAgeMs);
    forall id | id in granules
      ensures granules[id] in list
    {
      var k :| 0 <= k < |order| && order[k] == id;
      assert list[k] == granules[id];
    }
  }

  function IdsOf(gs: seq<Granule>): set<string> {
    set g | g in gs :: g.id
  }

  /** The ids of the stale records of a collection. */
  function StaleIds(granules: map<string, Granule>, now: int, maxAgeMs: int): set<string> {
    set id | id in granules && IsStale(granules[id], now, maxAgeMs)
  }

  /** A list with distinct ids has as many ids as records. */
  lemma {:induction false} DistinctIdsCount(gs: seq<Granule>)
    requires DistinctIds(gs)
    ensures |IdsOf(gs)| == |gs|
    decreases |gs|
  {
    if gs != [] {
      var n := |gs| - 1;
      var init := gs[..n];
      assert DistinctIds(init);
      DistinctIdsCount(init);
      IdsOfExtend(gs, n);
      assert gs[..n + 1] == gs;
      assert forall k :: 0 <= k < n ==> init[k].id != gs[n].id;
    }
  }

  /** A list holding exactly the stale records of a collection once each is
      as long as the collection has stale records. */
  lemma StaleCount(granules: map<string, Granule>, stale: seq<Granule>, now: int, maxAgeMs: int)
    requires forall id :: id in granules ==> (granules[id] in stale <==> IsStale(granules[id], now, maxAgeMs))
    requires forall g :: g in stale ==> g.id in granules && granules[g.id] == g
    requires forall id :: id in granules ==> granules[id].id == id
    requires DistinctIds(stale)
    ensures |stale| == |StaleIds(granules, now, maxAgeMs)|
  {
    StaleIdsExact(granules, stale, now, maxAgeMs);
    DistinctIdsCount(stale);
    assert IdsOf(stale) == StaleIds(granules, now, maxAgeMs);
  }

  /** When `stale` holds exactly the stale records of `granules`, each filed
      under its id, its ids are exactly the ids of the stale records. */
  lemma StaleIdsExact(granules: map<string, Granule>, stale: seq<Granule>, now: int, maxAgeMs: int)
    requires forall id :: id in granules ==> (granules[id] in stale <==> IsStale(granules[id], now, maxAgeMs))
    requires forall g :: g in stale ==> g.id in granules && granules[g.id] == g
    requires forall id :: id in granules ==> granules[id].id == id
    ensures forall id :: id in granules ==> (id in IdsOf(stale) <==> IsStale(granules[id], now, maxAgeMs))
  {
    forall id | id in granules
      ensures id in IdsOf(stale) <==> IsStale(granules[id], now, maxAgeMs)
    {
      if IsStale(granules[id], now, maxAgeMs) {
        assert granules[id] in stale;
      }
      if id in IdsOf(stale) {
        var g :| g in stale && g.id == id;
        assert granules[id] == g;
      }
    }
  }

  /** Releasing each listed record, when the list holds exactly the stale
      records, releases exactly the stale records; their retry counts and
      errors stay. */
  lemma StaleReleaseExact(granules: map<string, Granule>, stale: seq<Granule>, updated: map<string, Granule>,
                          now: int, maxAgeMs: int)
    requires forall id :: id in granules ==> (granules[id] in stale <==> IsStale(granules[id], now, maxAgeMs))
    requires forall g :: g in stale ==> g.id in granules && granules[g.id] == g
    requires forall id :: id in granules ==> granules[id].id == id
    requires updated.Keys == granules.Keys
    requires forall id :: id in granules ==>
      updated[id] == if id in IdsOf(stale) then Released(granules[id]) else granules[id]
    ensures forall id :: id in granules ==> updated[id] == ReleasedIfStale(granules[id], now, maxAgeMs)
    ensures forall id :: id in granules ==>
      updated[id].retryCount == granules[id].retryCount && updated[id].lastError == granules[id].lastError
  {
    StaleIdsExact(granules, stale, now, maxAgeMs);
  }

  /** Releasing the stale records keeps a collection indexed under the same
      order and keeps every record's owner fields consistent. */
  lemma StaleReleaseKeepsIndex(granules: map<string, Granule>, updated: map<string, Granule>,
                               order: seq<string>, now: int, maxAgeMs: int)
    requires Indexed(granules, order)
    requires updated.Keys == granules.Keys
    requires forall id :: id in granules ==> updated[id] == ReleasedIfStale(granules[id], now, maxAgeMs)
    ensures Indexed(updated, order)
    ensures (forall id :: id in granules ==> OwnerFieldsConsistent(granules[id])) ==>
      forall id :: id in updated ==> OwnerFieldsConsistent(updated[id])
  {
  }

  /** Filing a record under its own id keeps the index: a new id goes at
      the end of the order, a known one keeps its place. */
  lemma FileKeepsIndex(granules: map<string, Granule>, order: seq<string>, g: Granule)
    requires Indexed(granules, order)
    ensures Indexed(granules[g.id := g], if g.id in granules then order else order + [g.id])
  {
    if g.id !in granules {
      var o := order + [g.id];
      assert forall i :: 0 <= i < |order| ==> o[i] == order[i] && o[i] != g.id;
    }
  }

  /** The ids of an in-memory store: the k-th one created is G-k. */
  predicate Counted(order: seq<string>) {
    forall k :: 0 <= k < |order| ==> order[k] == GranuleId(k + 1)
  }

  /** The next id of a counted order is new, and appending it keeps the
      order counted. */
  lemma CountedAppend(order: seq<string>)
    requires Counted(order)
    ensures GranuleId(|order| + 1) !in order
    ensures Counted(order + [GranuleId(|order| + 1)])
  {
    forall k | 0 <= k < |order|
      ensures order[k] != GranuleId(|order| + 1)
    {
      if order[k] == GranuleId(|order| + 1) {
        NumberedInjective("G-", k + 1, |order| + 1);
      }
    }
  }

  lemma IdsOfExtend(gs: seq<Granule>, i: nat)
    requires i < |gs|
    ensures IdsOf(gs[..i + 1]) == IdsOf(gs[..i]) + {gs[i].id}
  {
    assert gs[..i + 1] == gs[..i] + [gs[i]];
  }

  /** The loop of releaseStaleClaims: releases each listed record in turn,
      so that exactly the records filed under a listed id end up released. */
  method ReleaseEach(granules: map<string, Granule>, stale: seq<Granule>)
    returns (updated: map<string, Granule>)
    requires forall g :: g in stale ==> g.id in granules
    ensures updated.Keys == granules.Keys
    ensures forall id :: id in granules ==>
      updated[id] == if id in IdsOf(stale) then Released(granules[id]) else granules[id]
  {
    updated := granules;
    ghost var done: set<string> := {};
    var i := 0;
    while i < |stale|
      invariant 0 <= i <= |stale|
      invariant updated.Keys == granules.Keys
      invariant done == IdsOf(stale[..i])
      invariant forall id :: id in done ==> id in granules && updated[id] == Released(granules[id])
      invariant forall id :: id in updated && id !in done ==> updated[id] == granules[id]
    {
      var id := stale[i].id;
      IdsOfExtend(stale, i);
      updated := updated[id := Released(updated[id])];
      done := done + {id};
      i := i + 1;
    }
    assert stale[..i] == stale;
  }

  /** The in-memory part of releaseStaleClaims, given the list getStaleClaims
      returned: the stale records, and only they, come back released with
      retry count and error kept, the index holds, and the list is as long as
      the collection has stale records. */
  method ReleaseListed(granules: map<string, Granule>, order: seq<string>, stale: seq<Granule>,
                       now: int, maxAgeMs: int)
    returns (updated: map<string, Granule>)
    requires Indexed(granules, order)
    requires stale == StaleAmong(Listing(granules, order), now, maxAgeMs)
    ensures Indexed(updated, order)
    ensures updated.Keys == granules.Keys
    ensures forall id :: id in granules ==> updated[id] == ReleasedIfStale(granules[id], now, maxAgeMs)
    ensures forall id :: id in granules ==>
      updated[id].retryCount == granules[id].retryCount && updated[id].lastError == granules[id].lastError
    ensures (forall id :: id in granules ==> OwnerFieldsConsistent(granules[id])) ==>
      forall id :: id in updated ==> OwnerFieldsConsistent(updated[id])
    ensures |stale| == |StaleIds(granules, now, maxAgeMs)|
  {
    StaleListing(granules, order, now, maxAgeMs);
    updated := ReleaseEach(granules, stale);
    StaleReleaseExact(granules, stale, updated, now, maxAgeMs);
    StaleCount(granules, stale, now, maxAgeMs);
    StaleReleaseKeepsIndex(granules, updated, order, now, maxAgeMs);
  }

  /** All ids in `order` were issued by a counter that now stands at nextId:
      each is "G-n" for some n below nextId. */
  ghost predicate WellNumbered(order: seq<string>, nextId: int) {
    forall id :: id in order ==> exists n :: n < nextId && id == GranuleId(n)
  }

  /** The id the counter issues next is fresh in a well-numbered store. */
  lemma NextIdFresh(order: seq<string>, nextId: int)
    requires WellNumbered(order, nextId)
    ensures GranuleId(nextId) !in order
    ensures WellNumbered(order + [GranuleId(nextId)], nextId + 1)
  {
    if GranuleId(nextId) in order {
      var n :| n < nextId && GranuleId(nextId) == GranuleId(n);
      NumberedInjective("G-", nextId, n);
      assert false;
    }
  }
}
