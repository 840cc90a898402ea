/** The durable granule store (src/file-store.ts): the same contract as the
    in-memory store, plus retry accounting on release, content updates with
    a content hash, and a full snapshot `{nextId, granules}` written after
    every successful mutation. The file is modelled by what a read of it
    yields (`DiskFile`), the write by a ghost copy of the last snapshot and a
    ghost count of writes, and the SHA-256 content hash by a function the
    store is given. */
module DurableStore {
  import opened Text
  import opened Granules

  /** What reading and parsing the state file yields. `Parsed` with
      `granules == None` is a parseable document without a usable
      `granules` list. */
  datatype DiskFile =
    | Missing
    | Unparseable
    | Parsed(nextId: int, granules: Option<seq<Granule>>)

  /** The in-memory state the store holds: the map, its insertion order and
      the id counter. */
  datatype StoreImage = StoreImage(granules: map<string, Granule>, order: seq<string>, nextId: int)

  /** `new Map(list.map(g => [g.id, g]))`: keys in order of first
      occurrence, each filed with its last record in the list. */
  function IndexList(gs: seq<Granule>): (r: (map<string, Granule>, seq<string>))
    ensures Indexed(r.0, r.1)
    ensures forall g :: g in gs ==> g.id in r.0
    ensures forall id :: id in r.0 ==> r.0[id] in gs
    decreases |gs|
  {
    if gs == [] then (map[], [])
    else
      var prefix := IndexList(gs[..|gs| - 1]);
      var g := gs[|gs| - 1];
      assert forall h :: h in gs ==> h in gs[..|gs| - 1] || h == g;
      (prefix.0[g.id := g], if g.id in prefix.0 then prefix.1 else prefix.1 + [g.id])
  }

  /** load(): a missing or unreadable file leaves the fresh state (no
      granules, counter 1). A parsed document sets the counter first; if its
      granule list is then unusable the exception leaves the map empty but
      the counter already assigned. */
  function Load(file: DiskFile): (r: StoreImage)
    ensures Indexed(r.granules, r.order)
    ensures !file.Parsed? ==> r == StoreImage(map[], [], 1)
    ensures file.Parsed? ==> r.nextId == file.nextId
    ensures file.Parsed? && file.granules.None? ==> r.granules == map[] && r.order == []
  {
    match file
    case Missing => StoreImage(map[], [], 1)
    case Unparseable => StoreImage(map[], [], 1)
    case Parsed(n, None) => StoreImage(map[], [], n)
    case Parsed(n, Some(gs)) =>
      var index := IndexList(gs);
      StoreImage(index.0, index.1, n)
  }

  /** persist(): the document written, `{nextId, granules}` with the
      granules in insertion order. */
  function SnapshotOf(granules: map<string, Granule>, order: seq<string>, nextId: int): DiskFile
    requires forall id :: id in order ==> id in granules
  {
    Parsed(nextId, Some(Listing(granules, order)))
  }

  function Restrict(granules: map<string, Granule>, order: seq<string>): map<string, Granule> {
    map id | id in order && id in granules :: granules[id]
  }

  /** Indexing one more record files it under its id, appending a new id. */
  lemma IndexListAppend(gs: seq<Granule>, g: Granule)
    ensures var before := IndexList(gs);
      IndexList(gs + [g]) ==
        (before.0[g.id := g], if g.id in before.0 then before.1 else before.1 + [g.id])
  {
    assert (gs + [g])[..|gs|] == gs;
  }

  /** Listing one more key appends its record. */
  lemma ListingAppend(granules: map<string, Granule>, order: seq<string>, id: string)
    requires forall k :: k in order ==> k in granules
    requires id in granules
    ensures Listing(granules, order + [id]) == Listing(granules, order) + [granules[id]]
  {
  }

  /** Restricting to one more key adds that key's record. */
  lemma RestrictAppend(granules: map<string, Granule>, order: seq<string>, id: string)
    requires id in granules
    ensures Restrict(granules, order + [id]) == Restrict(granules, order)[id := granules[id]]
  {
  }

  lemma {:induction false} IndexListing(granules: map<string, Granule>, order: seq<string>)
    requires forall id :: id in order ==> id in granules
    requires Distinct(order)
    requires forall id :: id in granules ==> granules[id].id == id
    ensures IndexList(Listing(granules, order)) == (Restrict(granules, order), order)
    decreases |order|
  {
    if order != [] {
      var prefix := order[..|order| - 1];
      var last := order[|order| - 1];
      assert prefix + [last] == order;
      assert last !in prefix;
      IndexListing(granules, prefix);
      ListingAppend(granules, prefix, last);
      IndexListAppend(Listing(granules, prefix), granules[last]);
      RestrictAppend(granules, prefix, last);
    }
  }

  /** Round trip: loading what persist() wrote gives back the same granules,
      in the same order, and the same counter. */
  lemma LoadSnapshot(granules: map<string, Granule>, order: seq<string>, nextId: int)
    requires Indexed(granules, order)
    ensures Load(SnapshotOf(granules, order, nextId)) == StoreImage(granules, order, nextId)
  {
    IndexListing(granules, order);
    assert Restrict(granules, order) == granules;
  }

  /** A non-empty error message is what `if (error)` accepts. */
  predicate Truthy(error: Option<string>) {
    error.Some? && error.value != ""
  }

  /** Retry accounting of a release: with a truthy error the count goes up by
      one and the error is recorded; otherwise both fields stay. */
  function AfterRelease(g: Granule, error: Option<string>): (r: Granule)
    ensures RetriesOf(r) == RetriesOf(g) + (if Truthy(error) then 1 else 0)
    ensures r.lastError == (if Truthy(error) then error else g.lastError)
    ensures r == Released(g).(retryCount := r.retryCount, lastError := r.lastError)
    ensures Truthy(error) ==> r.retryCount == Some(RetriesOf(g) + 1)
    ensures !Truthy(error) ==> r.retryCount == g.retryCount && r.lastError == g.lastError
  {
    var released := Released(g);
    if Truthy(error) then released.(retryCount := Some(RetriesOf(g) + 1), lastError := error)
    else released
  }

  class FileStore {
    var granules: map<string, Granule>
    var order: seq<string>
    var nextId: int
    /** computeContentHash (SHA-256 of the content, in hex). */
    const hash: string -> string
    /** The last document written to the state file. */
    ghost var disk: DiskFile
    /** How many times persist() has run. */
    ghost var writes: nat

    ghost predicate Valid()
      reads this
    {
      Indexed(granules, order)
    }

    function Image(): StoreImage
      reads this
    {
      StoreImage(granules, order, nextId)
    }

    /** The constructor loads the state file; it does not write it. */
    constructor (file: DiskFile, hash: string -> string)
      ensures Valid()
      ensures Image() == Load(file)
      ensures file.Missing? || file.Unparseable? ==> granules == map[] && order == [] && nextId == 1
      ensures this.hash == hash && disk == file && writes == 0
    {
      var image := Load(file);
      granules := image.granules;
      order := image.order;
      nextId := image.nextId;
      this.hash := hash;
      disk := file;
      writes := 0;
    }

    method Persist()
      requires Valid()
      modifies this
      ensures Valid()
      ensures disk == SnapshotOf(granules, order, nextId) && writes == old(writes) + 1
      ensures granules == old(granules) && order == old(order) && nextId == old(nextId)
    {
      disk := SnapshotOf(granules, order, nextId);
      writes := writes + 1;
    }

    /** createGranule: ids come from the counter as in the in-memory store,
        and the new granule carries the hash of its content. Map.set keeps an
        existing key's position, which only matters if the loaded file had
        already used the id; a well-numbered store never has. */
    method CreateGranule(kind: GranuleClass, content: string, now: int) returns (g: Granule)
      requires Valid()
      modifies this
      ensures Valid()
      ensures g.id == GranuleId(old(nextId)) && nextId == old(nextId) + 1
      ensures g == NewGranule(g.id, kind, content, Some(hash(content)), now)
      ensures granules == old(granules)[g.id := g]
      ensures order == if g.id in old(granules) then old(order) else old(order) + [g.id]
      ensures WellNumbered(old(order), old(nextId)) ==> g.id !in old(granules) && WellNumbered(order, nextId)
      ensures disk == SnapshotOf(granules, order, nextId) && writes == old(writes) + 1
    {
      var id := GranuleId(nextId);
      if WellNumbered(order, nextId) {
        NextIdFresh(order, nextId);
      }
      nextId := nextId + 1;
      g := NewGranule(id, kind, content, Some(hash(content)), now);
      FileKeepsIndex(granules, order, g);
      if id !in granules {
        order := order + [id];
      }
      granules := granules[id := g];
      Persist();
    }

    function ListGranules(): (r: seq<Granule>)
      reads this
      requires Valid()
      ensures |r| == |order|
      ensures forall k :: 0 <= k < |r| ==> r[k].id == order[k] && r[k] == granules[order[k]]
    {
      Listing(granules, order)
    }

    function GetGranule(id: string): (r: Option<Granule>)
      reads this
      requires Valid()
      ensures r.Some? <==> id in granules
      ensures r.Some? ==> r.value.id == id && r.value in ListGranules()
    {
      if id in granules then
        var k :| 0 <= k < |order| && order[k] == id;
        assert ListGranules()[k] == granules[id];
        Some(granules[id])
      else None
    }

    /** claimGranule: the same guard and effect as the in-memory store, and a
        write exactly when it succeeds. */
    method ClaimGranule(granuleId: string, workerId: string, now: int)
      returns (success: bool, granule: Option<Granule>)
      requires Valid()
      modifies this
      ensures Valid()
      ensures success <==> Claimable(old(granules), granuleId)
      ensures success ==> granules == old(granules)[granuleId := ClaimedBy(old(granules)[granuleId], workerId, now)]
      ensures !success ==> granules == old(granules)
      ensures granule == (if success then Some(granules[granuleId]) else None)
      ensures order == old(order) && nextId == old(nextId)
      ensures success ==> disk == SnapshotOf(granules, order, nextId) && writes == old(writes) + 1
      ensures !success ==> disk == old(disk) && writes == old(writes)
    {
      if granuleId !in granules || granules[granuleId].state != Unclaimed {
        return false, None;
      }
      var g := ClaimedBy(granules[granuleId], workerId, now);
      granules := granules[granuleId := g];
      Persist();
      return true, Some(g);
    }

    /** releaseGranule: the in-memory guard and effect, plus retry
        accounting: a truthy error adds exactly one to the retry count
        (absent counts as 0) and becomes lastError; otherwise both stay. */
    method ReleaseGranule(granuleId: string, workerId: string, error: Option<string>)
      returns (success: bool)
      requires Valid()
      modifies this
      ensures Valid()
      ensures success <==> HeldBy(old(granules), granuleId, workerId)
      ensures success ==> granules == old(granules)[granuleId := AfterRelease(old(granules)[granuleId], error)]
      ensures success ==> (granules[granuleId].state == Unclaimed
                           && granules[granuleId].claimedBy.None? && granules[granuleId].claimedAt.None?)
      ensures success ==> RetriesOf(granules[granuleId]) == RetriesOf(old(granules)[granuleId]) + (if Truthy(error) then 1 else 0)
      ensures !success ==> granules == old(granules)
      ensures order == old(order) && nextId == old(nextId)
      ensures success ==> disk == SnapshotOf(granules, order, nextId) && writes == old(writes) + 1
      ensures !success ==> disk == old(disk) && writes == old(writes)
    {
      if granuleId !in granules || granules[granuleId].state != Claimed
         || granules[granuleId].claimedBy != Some(workerId) {
        return false;
      }
      granules := granules[granuleId := AfterRelease(granules[granuleId], error)];
      Persist();
      return true;
    }

    /** completeGranule: the same guard and effect as the in-memory store,
        and a write exactly when it succeeds. */
    method CompleteGranule(granuleId: string, workerId: string, summary: Option<string>, now: int)
      returns (success: bool)
      requires Valid()
      modifies this
      ensures Valid()
      ensures success <==> HeldBy(old(granules), granuleId, workerId)
      ensures success ==> granules == old(granules)[granuleId := CompletedAt(old(granules)[granuleId], now, summary)]
      ensures !success ==> granules == old(granules)
      ensures order == old(order) && nextId == old(nextId)
      ensures success ==> disk == SnapshotOf(granules, order, nextId) && writes == old(writes) + 1
      ensures !success ==> disk == old(disk) && writes == old(writes)
    {
      if granuleId !in granules || granules[granuleId].state != Claimed
         || granules[granuleId].claimedBy != Some(workerId) {
        return false;
      }
      granules := granules[granuleId := CompletedAt(granules[granuleId], now, summary)];
      Persist();
      return true;
    }

    function GetStaleClaims(maxAgeMs: int, now: int): (r: seq<Granule>)
      reads this
      requires Valid()
      ensures forall id :: id in granules ==> (granules[id] in r <==> IsStale(granules[id], now, maxAgeMs))
      ensures forall g :: g in r ==> g.id in granules && granules[g.id] == g
      ensures DistinctIds(r)
    {
      StaleListing(granules, order, now, maxAgeMs);
      StaleAmong(Listing(granules, order), now, maxAgeMs)
    }

    /** releaseStaleClaims: releases exactly the stale claims without touching
        retry count or last error, and writes only if it released any. */
    method ReleaseStaleClaims(maxAgeMs: int, now: int) returns (released: nat)
      requires Valid()
      modifies this
      ensures Valid()
      ensures released == |old(GetStaleClaims(maxAgeMs, now))|
      ensures released == |StaleIds(old(granules), now, maxAgeMs)|
      ensures granules.Keys == old(granules).Keys
      ensures forall id :: id in granules ==> granules[id] == ReleasedIfStale(old(granules)[id], now, maxAgeMs)
      ensures forall id :: id in granules ==>
        granules[id].retryCount == old(granules)[id].retryCount && granules[id].lastError == old(granules)[id].lastError
      ensures order == old(order) && nextId == old(nextId)
      ensures released > 0 ==> disk == SnapshotOf(granules, order, nextId) && writes == old(writes) + 1
      ensures released == 0 ==> disk == old(disk) && writes == old(writes)
    {
      var stale := GetStaleClaims(maxAgeMs, now);
      granules := ReleaseListed(granules, order, stale, now, maxAgeMs);
      released := |stale|;
      if released > 0 {
        Persist();
      }
    }

    /** updateGranuleContent: fails for an unknown id without writing;
        otherwise replaces the content and its hash, leaves every other field
        (state and owner included) as it was, and returns a copy. */
    method UpdateGranuleContent(granuleId: string, content: string)
      returns (success: bool, granule: Option<Granule>)
      requires Valid()
      modifies this
      ensures Valid()
      ensures success <==> granuleId in old(granules)
      ensures success ==> granules == old(granules)[granuleId :=
        old(granules)[granuleId].(content := content, contentHash := Some(hash(content)))]
      ensures !success ==> granules == old(granules)
      ensures granule == (if success then Some(granules[granuleId]) else None)
      ensures order == old(order) && nextId == old(nextId)
      ensures success ==> disk == SnapshotOf(granules, order, nextId) && writes == old(writes) + 1
      ensures !success ==> disk == old(disk) && writes == old(writes)
    {
      if granuleId !in granules {
        return false, None;
      }
      var g := granules[granuleId].(content := content, contentHash := Some(hash(content)));
      granules := granules[granuleId := g];
      Persist();
      return true, Some(g);
    }
  }
}
