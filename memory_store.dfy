/** The in-memory granule store (src/store.ts). The JavaScript Map becomes a
    `map` from id to record together with the Map's insertion order, kept as a
    sequence of ids; the clock is the parameter `now`. */
module MemoryStore {
  import opened Text
  import opened Granules

  class GranuleStore {
    var granules: map<string, Granule>
    var order: seq<string>
    var nextId: nat

    /** The store's invariant: the ids are G-1, G-2, ... up to the counter,
        in creation order, each filed under its own id, and every record's
        owner fields agree with its state. */
    ghost predicate Valid()
      reads this
    {
      && nextId == |order| + 1
      && Counted(order)
      && Indexed(granules, order)
      && (forall id :: id in granules ==> OwnerFieldsConsistent(granules[id]))
    }

    constructor ()
      ensures Valid()
      ensures granules == map[] && order == [] && nextId == 1
    {
      granules := map[];
      order := [];
      nextId := 1;
    }

    /** createGranule: issues "G-<nextId>", advances the counter, and files a
        new unclaimed granule at the end of the listing. */
    method CreateGranule(kind: GranuleClass, content: string, now: int) returns (g: Granule)
      requires Valid()
      modifies this
      ensures Valid()
      ensures g.id == GranuleId(old(nextId)) && g.id !in old(granules)
      ensures g == NewGranule(g.id, kind, content, None, now)
      ensures nextId == old(nextId) + 1
      ensures granules == old(granules)[g.id := g]
      ensures order == old(order) + [g.id]
    {
      var id := GranuleId(nextId);
      CountedAppend(order);
      nextId := nextId + 1;
      g := NewGranule(id, kind, content, None, now);
      FileKeepsIndex(granules, order, g);
      granules := granules[id := g];
      order := order + [id];
    }

    /** listGranules: every record, in creation order, so the k-th one is
        G-(k+1). */
    function ListGranules(): (r: seq<Granule>)
      reads this
      requires Valid()
      ensures |r| == nextId - 1
      ensures forall k :: 0 <= k < |r| ==> r[k].id == GranuleId(k + 1) && r[k].id in granules && r[k] == granules[r[k].id]
    {
      Listing(granules, order)
    }

    /** getGranule: the record filed under id, which is then part of the
        listing; absent for an unknown id. */
    function GetGranule(id: string): (r: Option<Granule>)
      reads this
      requires Valid()
      ensures r.Some? <==> id in granules
      ensures r.Some? ==> r.value.id == id && r.value in ListGranules()
    {
      if id in granules then
        var k :| 0 <= k < |order| && order[k] == id;
        assert ListGranules()[k] == granules[id];
        Some(granules[id])
      else None
    }

    /** claimGranule: succeeds exactly on a known unclaimed granule, which it
        marks claimed by workerId at now, and returns a copy of; on failure
        nothing changes and no granule is returned. */
    method ClaimGranule(granuleId: string, workerId: string, now: int)
      returns (success: bool, granule: Option<Granule>)
      requires Valid()
      modifies this
      ensures Valid()
      ensures success <==> Claimable(old(granules), granuleId)
      ensures success ==> granules == old(granules)[granuleId := ClaimedBy(old(granules)[granuleId], workerId, now)]
      ensures !success ==> granules == old(granules)
      ensures granule == (if success then Some(granules[granuleId]) else None)
      ensures order == old(order) && nextId == old(nextId)
    {
      if granuleId !in granules {
        return false, None;
      }
      var g := granules[granuleId];
      if g.state != Unclaimed {
        return false, None;
      }
      g := ClaimedBy(g, workerId, now);
      granules := granules[granuleId := g];
      return true, Some(g);
    }

    /** releaseGranule: succeeds exactly when workerId holds the claim; the
        granule is then unclaimed with both owner fields cleared. */
    method ReleaseGranule(granuleId: string, workerId: string) returns (success: bool)
      requires Valid()
      modifies this
      ensures Valid()
      ensures success <==> HeldBy(old(granules), granuleId, workerId)
      ensures success ==> granules == old(granules)[granuleId := Released(old(granules)[granuleId])]
      ensures !success ==> granules == old(granules)
      ensures order == old(order) && nextId == old(nextId)
    {
      if granuleId !in granules {
        return false;
      }
      var g := granules[granuleId];
      if g.state != Claimed || g.claimedBy != Some(workerId) {
        return false;
      }
      granules := granules[granuleId := Released(g)];
      return true;
    }

    /** completeGranule: succeeds exactly when workerId holds the claim; the
        granule is then completed at now, its summary replaced only when one
        is given, and its owner fields left as they were. */
    method CompleteGranule(granuleId: string, workerId: string, summary: Option<string>, now: int)
      returns (success: bool)
      requires Valid()
      modifies this
      ensures Valid()
      ensures success <==> HeldBy(old(granules), granuleId, workerId)
      ensures success ==> granules == old(granules)[granuleId := CompletedAt(old(granules)[granuleId], now, summary)]
      ensures success ==> (granules[granuleId].claimedBy == Some(workerId)
                           && granules[granuleId].claimedAt == old(granules)[granuleId].claimedAt)
      ensures !success ==> granules == old(granules)
      ensures order == old(order) && nextId == old(nextId)
    {
      if granuleId !in granules {
        return false;
      }
      var g := granules[granuleId];
      if g.state != Claimed || g.claimedBy != Some(workerId) {
        return false;
      }
      granules := granules[granuleId := CompletedAt(g, now, summary)];
      return true;
    }

    /** getStaleClaims: exactly the stored records whose claim is older than
        maxAgeMs at now, in listing order. */
    function GetStaleClaims(maxAgeMs: int, now: int): (r: seq<Granule>)
      reads this
      requires Valid()
      ensures forall id :: id in granules ==> (granules[id] in r <==> IsStale(granules[id], now, maxAgeMs))
      ensures forall g :: g in r ==> g.id in granules && granules[g.id] == g
      ensures DistinctIds(r)
    {
      StaleListing(granules, order, now, maxAgeMs);
      StaleAmong(Listing(granules, order), now, maxAgeMs)
    }

    /** releaseStaleClaims: releases exactly the stale claims, leaves every
        other record as it was, and returns how many it released. */
    method ReleaseStaleClaims(maxAgeMs: int, now: int) returns (released: nat)
      requires Valid()
      modifies this
      ensures Valid()
      ensures released == |old(GetStaleClaims(maxAgeMs, now))|
      ensures released == |StaleIds(old(granules), now, maxAgeMs)|
      ensures granules.Keys == old(granules).Keys
      ensures forall id :: id in granules ==> granules[id] == ReleasedIfStale(old(granules)[id], now, maxAgeMs)
      ensures order == old(order) && nextId == old(nextId)
    {
      var stale := GetStaleClaims(maxAgeMs, now);
      granules := ReleaseListed(granules, order, stale, now, maxAgeMs);
      released := |stale|;
    }
  }
}
