/**
 * The two history caches of match recovery: an in-process map and a durable table, both
 * keyed by player, in front of the paid `getmatchhistory` call.
 */
module HistoryCaches {
  import opened Seqs
  import opened RelayPlayers

  /** One entry of a history response; `matchId` 0 when the vendor gave none. */
  datatype HistoryRow = HistoryRow(matchId: nat, player: Player)

  type History = seq<HistoryRow>

  /** An unexpired row of `player_match_history_cache`. */
  datatype CacheRow = CacheRow(matchIds: set<nat>, matches: History)

  datatype Caches = Caches(memory: map<nat, History>, durable: map<nat, CacheRow>)

  /**
   * What one paid call leads to: the call fails, or it returns and the two durable writes
   * that follow (cache row, then entry rows) each succeed or throw.
   */
  datatype VendorHistory = CallFailed | Returned(matches: History, cached: bool, entriesStored: bool)

  datatype Lookup = Lookup(playerId: nat, matches: History, success: bool)

  function MatchIdsOf(matches: History): set<nat> {
    set row | row in matches && row.matchId > 0 :: row.matchId
  }

  function Written(matches: History): CacheRow {
    CacheRow(MatchIdsOf(matches), matches)
  }

  /** A durable row answers only when it lists the target match. */
  function ReadCached(c: Caches, playerId: nat, matchId: nat): Option<History> {
    if playerId in c.durable && matchId in c.durable[playerId].matchIds
    then Some(c.durable[playerId].matches)
    else None
  }

  /** `matches.find(...)`. */
  function FindMatch(matches: History, matchId: nat): Option<HistoryRow> {
    if matches == [] then None
    else if matches[0].matchId == matchId then Some(matches[0])
    else FindMatch(matches[1..], matchId)
  }

  // ------------------------------------------------------- first pass: cache lookups

  datatype Classified = Classified(hits: seq<Lookup>, toFetch: seq<nat>, memoryHits: nat, durableHits: nat,
        caches: Caches)

  function Classify(ids: seq<nat>, matchId: nat, c: Caches): Classified {
    if ids == [] then Classified([], [], 0, 0, c)
    else
      ClassifyOne(Classify(ids[..|ids| - 1], matchId, c), ids[|ids| - 1], matchId)
  }

  /** One player: memory first, then the durable table, else the list of paid calls. */
  function ClassifyOne(k: Classified, id: nat, matchId: nat): Classified {
    if id in k.caches.memory then
      k.(hits := k.hits + [Lookup(id, k.caches.memory[id], true)], memoryHits := k.memoryHits + 1)
    else
      match ReadCached(k.caches, id, matchId)
      case Some(h) =>
        k.(hits := k.hits + [Lookup(id, h, true)], durableHits := k.durableHits + 1,
           caches := k.caches.(memory := k.caches.memory[id := h]))
      case None => k.(toFetch := k.toFetch + [id])
  }

  // ------------------------------------------------------- second pass: paid calls

  datatype Fetched = Fetched(results: seq<Lookup>, caches: Caches)

  function Store(c: Caches, id: nat, answer: VendorHistory): Caches {
    match answer
    case CallFailed => c
    case Returned(matches, cached, _) =>
      Caches(c.memory[id := matches], if cached then c.durable[id := Written(matches)] else c.durable)
  }

  function Answer(id: nat, answer: VendorHistory): Lookup {
    if answer.Returned? && answer.cached && answer.entriesStored
    then Lookup(id, answer.matches, true)
    else Lookup(id, [], false)
  }

  function Fetch(ids: seq<nat>, vendor: nat -> VendorHistory, c: Caches): Fetched {
    if ids == [] then Fetched([], c)
    else
      var f, id := Fetch(ids[..|ids| - 1], vendor, c), ids[|ids| - 1];
      Fetched(f.results + [Answer(id, vendor(id))], Store(f.caches, id, vendor(id)))
  }

  // ------------------------------------------------------------ what the caches guarantee

  /** Every durable row indexes exactly the matches it stores. */
  ghost predicate Faithful(c: Caches) {
    forall id :: id in c.durable ==> c.durable[id].matchIds == MatchIdsOf(c.durable[id].matches)
  }

  lemma {:induction false} FindMatchExact(matches: History, matchId: nat)
    ensures FindMatch(matches, matchId).Some? <==> exists i :: 0 <= i < |matches| && matches[i].matchId == matchId
    ensures FindMatch(matches, matchId).Some? ==> FindMatch(matches, matchId).value.matchId == matchId
  {
    if matches == [] {
    } else {
      FindMatchExact(matches[1..], matchId);
      assert matches == [matches[0]] + matches[1..];
    }
  }

  /** In a faithful cache a durable hit is never a false promise: the target will be found. */
  lemma DurableHitFindsTarget(c: Caches, playerId: nat, matchId: nat)
    requires Faithful(c)
    ensures ReadCached(c, playerId, matchId).Some? ==>
              FindMatch(ReadCached(c, playerId, matchId).value, matchId).Some?
  {
    if ReadCached(c, playerId, matchId).Some? {
      var matches := c.durable[playerId].matches;
      FindMatchExact(matches, matchId);
      var row :| row in matches && row.matchId == matchId;
      var i :| 0 <= i < |matches| && matches[i] == row;
    }
  }

  lemma ClassifySnoc(ids: seq<nat>, id: nat, matchId: nat, c: Caches)
    ensures Classify(ids + [id], matchId, c) == ClassifyOne(Classify(ids, matchId, c), id, matchId)
  {
    assert (ids + [id])[..|ids|] == ids;
  }

  /** Looking up touches only memory, keeps what memory knows, and fetches only the unknown. */
  lemma {:induction false} ClassifyContract(ids: seq<nat>, matchId: nat, c: Caches)
    ensures var k := Classify(ids, matchId, c);
            && k.caches.durable == c.durable
            && c.memory.Keys <= k.caches.memory.Keys <= c.memory.Keys + SetOf(ids)
            && |k.hits| == k.memoryHits + k.durableHits
            && k.memoryHits + k.durableHits + |k.toFetch| == |ids|
            && (forall id :: id in k.toFetch ==> id in ids && id !in c.memory)
            && (forall id :: id in ids ==> id in k.toFetch || id in k.caches.memory)
  {
    if ids == [] {
    } else {
      hide Classify, ReadCached;
      var init, last := ids[..|ids| - 1], ids[|ids| - 1];
      ClassifyContract(init, matchId, c);
      Snoc(ids);
      ClassifySnoc(init, last, matchId, c);
    }
  }

  /** With distinct ids nobody is queued for a paid call twice, nor while memory knows them. */
  lemma {:induction false} ClassifyDistinct(ids: seq<nat>, matchId: nat, c: Caches)
    requires Distinct(ids)
    ensures Distinct(Classify(ids, matchId, c).toFetch)
    ensures forall id :: id in Classify(ids, matchId, c).toFetch ==> id !in Classify(ids, matchId, c).caches.memory
  {
    if ids == [] {
    } else {
      hide Classify, ReadCached;
      var init, last := ids[..|ids| - 1], ids[|ids| - 1];
      ClassifyDistinct(init, matchId, c);
      ClassifyContract(init, matchId, c);
      Snoc(ids);
      assert last !in init;
      ClassifySnoc(init, last, matchId, c);
    }
  }

  function Answering(ids: seq<nat>, vendor: nat -> VendorHistory): set<nat> {
    set id | id in ids && vendor(id).Returned?
  }

  /** Afterwards memory knows exactly the old players and the ones the vendor answered for. */
  lemma {:induction false} FetchContract(ids: seq<nat>, vendor: nat -> VendorHistory, c: Caches)
    ensures var f := Fetch(ids, vendor, c);
            && |f.results| == |ids|
            && f.caches.memory.Keys == c.memory.Keys + Answering(ids, vendor)
            && (Faithful(c) ==> Faithful(f.caches))
  {
    if ids == [] {
    } else {
      var init, last := ids[..|ids| - 1], ids[|ids| - 1];
      FetchContract(init, vendor, c);
      assert ids == init + [last];
      assert Answering(ids, vendor) == Answering(init, vendor) + if vendor(last).Returned? then {last} else {};
    }
  }
}
