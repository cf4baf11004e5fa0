/**
 * `recoverBrokenMatch`: from a partial direct response and everything the relay can learn
 * elsewhere to one recovery result, with the vendor calls it costs.
 */
module Recovery {
  import opened Seqs
  import opened RankedScore
  import opened RelayPlayers
  import opened HistoryCaches

  datatype ShellScore = ShellScore(team1: Option<int>, team2: Option<int>, winner: Option<int>)

  /**
   * The part of a direct `MatchDetails` response that decides recovery. Every raw row is both a
   * player and, in its `result`, the row's own score observation.
   */
  datatype DirectMatch = DirectMatch(
    queue: nat,
    hasEntryTime: bool,
    players: seq<Player>,
    shell: ShellScore
  )

  /**
   * `getplayerbatchfrommatch`: an error, or profile ids in order with 0 for private profiles, and
   * the positions of the rows that carry a `ret_msg`.
   */
  datatype Roster = RosterFailed | RosterIds(entries: seq<nat>, marked: set<nat>)

  /** One request a recovery sends to the vendor. */
  datatype VendorCall = RosterCall | DemoCall | HistoryCall(playerId: nat)

  /** Which local SQL statements of one recovery throw. */
  datatype LocalSql = LocalSql(
    preflightFails: bool,
    recoveredReadFails: bool,
    historyReadFails: bool,
    bufferedReadFails: bool,
    cacheReadFails: nat -> bool,
    backfillFails: nat -> bool
  )

  /** Everything outside the relay process that one recovery may read, as arbitrary inputs. */
  datatype Evidence = Evidence(
    preRecovered: seq<Player>,
    preHistory: seq<Player>,
    preBuffered: seq<Player>,
    roster: Roster,
    recoveredRows: seq<Player>,
    historyRows: seq<Player>,
    bufferedRows: seq<Player>,
    vendor: nat -> VendorHistory
  )

  datatype Source =
    | LocalPreflight
    | RosterCallFailed
    | NoPlayerAnchors
    | TargetHistoryUnresolved
    | BrokenMatch

  datatype RecoveryResult = RecoveryResult(
    recovered: seq<Player>,
    source: Source,
    terminal: bool,
    calls: nat,
    shell: ShellScore
  )

  datatype RecoveryRun = RecoveryRun(result: RecoveryResult, caches: Caches, fetched: seq<nat>)

  const NO_SHELL := ShellScore(None, None, None)
  const ROSTER_SIZE := 10

  function ShellOf(r: Option<ProvedScore>): ShellScore {
    match r
    case Some(res) => ShellScore(Some(res.score.team1), Some(res.score.team2), Some(res.score.winner))
    case None => NO_SHELL
  }

  function Results(rows: seq<Player>): seq<Observation> {
    seq(|rows|, i requires 0 <= i < |rows| => rows[i].result)
  }

  /** The score fields of a participant row are those of match history; other rows have none. */
  const UNSCORED := Observation(Missing, Missing, Missing)

  /** Direct rows as participants: their scores are namespaced away as direct observations. */
  function Unscored(rows: seq<Player>): (r: seq<Player>)
    ensures |r| == |rows|
    ensures forall i :: 0 <= i < |rows| ==> r[i] == rows[i].(result := UNSCORED)
  {
    seq(|rows|, i requires 0 <= i < |rows| => rows[i].(result := UNSCORED))
  }

  function KnownPlayers(direct: Option<DirectMatch>): seq<Player> {
    match direct
    case Some(d) => Filter(Unscored(d.players), Usable)
    case None => []
  }

  function DirectObservations(direct: Option<DirectMatch>): seq<Observation> {
    match direct
    case Some(d) => Results(d.players)
    case None => []
  }

  function DirectShell(direct: Option<DirectMatch>): ShellScore {
    match direct
    case Some(d) => d.shell
    case None => NO_SHELL
  }

  /** Ids greater than zero, whatever else the row says. */
  function RealIds(rows: seq<Player>): set<nat> {
    set p | p in rows && p.id > 0 :: p.id
  }

  // ------------------------------------------------------------ readers of stored rows

  /** `Map` keyed by player id, first row wins, skipping `excluded`; in insertion order. */
  function FirstById(rows: seq<Player>, excluded: set<nat>): seq<Player> {
    if rows == [] then []
    else
      var kept, p := FirstById(rows[..|rows| - 1], excluded), rows[|rows| - 1];
      if p.id > 0 && p.id !in excluded && p.id !in Ids(kept) then kept + [p] else kept
  }

  function FirstAmong(rows: seq<Player>, wanted: set<nat>): map<nat, Player> {
    if rows == [] then map[]
    else
      var kept, p := FirstAmong(rows[..|rows| - 1], wanted), rows[|rows| - 1];
      if p.id in wanted && p.id !in kept then kept[p.id := p] else kept
  }

  /** `existingMap.set(...)` for every selected row: the last row wins. */
  function LastAmong(rows: seq<Player>, wanted: set<nat>): map<nat, Player> {
    if rows == [] then map[]
    else
      var kept, p := LastAmong(rows[..|rows| - 1], wanted), rows[|rows| - 1];
      if p.id in wanted then kept[p.id := p] else kept
  }

  // ------------------------------------------------------------------- local preflight

  datatype PreflightParts = PreflightParts(
    known: set<nat>,
    recovered: seq<Player>,
    history: seq<Player>,
    buffered: seq<Player>
  ) {
    function Rows(): seq<Player> {
      recovered + history + buffered
    }

    function Size(): nat {
      |known| + |recovered| + |history| + |buffered|
    }
  }

  /** `matchPlayerRowToRecoveryPlayer`: a `match_players` row read back carries no `ret_msg` and no score. */
  function Stored(rows: seq<Player>): (r: seq<Player>)
    ensures |r| == |rows|
    ensures forall p :: p in r ==> !p.sentinel && p.result == UNSCORED
  {
    seq(|rows|, i requires 0 <= i < |rows| => rows[i].(sentinel := false, result := UNSCORED))
  }

  function Parts(known: seq<Player>, e: Evidence): PreflightParts {
    var ids := RealIds(known);
    var recovered := FirstById(Stored(e.preRecovered), ids);
    var history := FirstById(e.preHistory, ids + Ids(recovered));
    var buffered := FirstById(e.preBuffered, ids + Ids(recovered) + Ids(history));
    PreflightParts(ids, recovered, history, buffered)
  }

  /** Score evidence of the preflight: every history and buffer observation, known players included. */
  function PreflightScore(direct: Option<DirectMatch>, e: Evidence): Option<ProvedScore> {
    ResolveSources(DirectObservations(direct),
                   Results(FirstById(e.preHistory, {}) + FirstById(e.preBuffered, {})))
  }

  predicate AuthoritativeShell(direct: Option<DirectMatch>) {
    direct.Some? && direct.value.queue > 0 && direct.value.hasEntryTime
  }

  predicate PreflightHolds(direct: Option<DirectMatch>, e: Evidence) {
    var known := KnownPlayers(direct);
    && Privates(known) == []
    && Parts(known, e).Size() == ROSTER_SIZE
    && AuthoritativeShell(direct)
    && PreflightScore(direct, e).Some?
  }

  function Preflight(direct: Option<DirectMatch>, e: Evidence): RecoveryResult {
    RecoveryResult(Parts(KnownPlayers(direct), e).Rows(), LocalPreflight, false, 0,
                   ShellOf(PreflightScore(direct, e)))
  }

  // ------------------------------------------------------------------------- full pass

  function Positive(ids: seq<nat>): seq<nat> {
    Filter(ids, (id: nat) => id > 0)
  }

  function PrivateProfiles(ids: seq<nat>): nat {
    |Filter(ids, (id: nat) => id == 0)|
  }

  function NotIn(ids: set<nat>): nat -> bool {
    (id: nat) => id !in ids
  }

  /** Roster ids without direct stats. */
  function MissingIds(direct: Option<DirectMatch>, entries: seq<nat>): seq<nat> {
    Filter(Positive(entries), NotIn(RealIds(KnownPlayers(direct))))
  }

  /** The local stores that answer for missing ids, each one before the next. */
  datatype LocalRows = LocalRows(
    recovered: map<nat, Player>,
    history: map<nat, Player>,
    buffered: map<nat, Player>
  ) {
    function Keys(): set<nat> {
      recovered.Keys + history.Keys + buffered.Keys
    }
  }

  function Locals(missing: set<nat>, e: Evidence): LocalRows {
    var recovered := LastAmong(Stored(e.recoveredRows), missing);
    var history := FirstAmong(e.historyRows, missing - recovered.Keys);
    var buffered := FirstAmong(e.bufferedRows, missing - recovered.Keys - history.Keys);
    LocalRows(recovered, history, buffered)
  }

  /** `ids.filter(id => m.has(id)).map(id => m.get(id))`. */
  function Pick(ids: seq<nat>, m: map<nat, Player>): seq<Player> {
    if ids == [] then []
    else
      Pick(ids[..|ids| - 1], m) + if ids[|ids| - 1] in m then [m[ids[|ids| - 1]]] else []
  }

  /** A history row for the target match, attributed to the queried player when it names nobody. */
  function TargetRow(row: HistoryRow, playerId: nat): Player {
    if row.player.id > 0 then row.player else row.player.(id := playerId)
  }

  function Harvest(results: seq<Lookup>, matchId: nat): seq<Player> {
    if results == [] then []
    else
      var last := results[|results| - 1];
      var found := FindMatch(last.matches, matchId);
      Harvest(results[..|results| - 1], matchId)
      + if last.success && found.Some? then [TargetRow(found.value, last.playerId)] else []
  }

  function DemoCalls(direct: Option<DirectMatch>): nat {
    if direct.None? then 1 else 0
  }

  datatype FullPass = FullPass(
    missing: seq<nat>,
    locals: LocalRows,
    unknown: seq<nat>,
    classified: Classified,
    fetched: Fetched,
    recovered: seq<Player>,
    score: Option<ProvedScore>
  )

  function RunFullPass(matchId: nat, direct: Option<DirectMatch>, entries: seq<nat>, e: Evidence, c: Caches): FullPass {
    var missing := MissingIds(direct, entries);
    var locals := Locals(SetOf(missing), e);
    var unknown := Filter(missing, NotIn(locals.Keys()));
    var classified := Classify(unknown, matchId, c);
    var fetched := Fetch(classified.toFetch, e.vendor, classified.caches);
    var recovered := Pick(missing, locals.recovered) + Pick(missing, locals.history) + Pick(missing, locals.buffered)
                     + Harvest(classified.hits + fetched.results, matchId)
                     + Privates(KnownPlayers(direct));
    FullPass(missing, locals, unknown, classified, fetched, recovered,
             ResolveSources(DirectObservations(direct), Results(recovered)))
  }

  predicate Unresolved(direct: Option<DirectMatch>, entries: seq<nat>, pass: FullPass) {
    || Filter(pass.missing, NotIn(RealIds(pass.recovered))) != []
    || PrivateProfiles(entries) > |Privates(KnownPlayers(direct))|
    || pass.score.None?
  }

  predicate NoAnchors(direct: Option<DirectMatch>, entries: seq<nat>) {
    && MissingIds(direct, entries) == []
    && PrivateProfiles(entries) == 0
    && Privates(KnownPlayers(direct)) == []
  }

  function Conclude(direct: Option<DirectMatch>, entries: seq<nat>, pass: FullPass): RecoveryResult {
    var calls := 1 + DemoCalls(direct) + |pass.classified.toFetch|;
    if Unresolved(direct, entries, pass) then
      RecoveryResult([], TargetHistoryUnresolved, false, calls, ShellOf(pass.score))
    else
      var anchorless := Positive(entries) == [];
      RecoveryResult(pass.recovered, if anchorless then NoPlayerAnchors else BrokenMatch, anchorless,
                     calls, ShellOf(pass.score))
  }

  /** The whole recovery of one match. */
  function Recover(matchId: nat, direct: Option<DirectMatch>, e: Evidence, c: Caches): RecoveryRun {
    if PreflightHolds(direct, e) then RecoveryRun(Preflight(direct, e), c, [])
    else if e.roster.RosterFailed? then
      RecoveryRun(RecoveryResult([], RosterCallFailed, false, 1, DirectShell(direct)), c, [])
    else if NoAnchors(direct, e.roster.entries) then
      RecoveryRun(RecoveryResult([], NoPlayerAnchors, true, 1, DirectShell(direct)), c, [])
    else
      var pass := RunFullPass(matchId, direct, e.roster.entries, e, c);
      RecoveryRun(Conclude(direct, e.roster.entries, pass), pass.fetched.caches, pass.classified.toFetch)
  }

  function HistoryCalls(ids: seq<nat>): seq<VendorCall> {
    seq(|ids|, i requires 0 <= i < |ids| => HistoryCall(ids[i]))
  }

  function DemoRequests(direct: Option<DirectMatch>): seq<VendorCall> {
    if direct.None? then [DemoCall] else []
  }

  /** The roster step is reached and names somebody to look for. */
  predicate ReachesAnchors(direct: Option<DirectMatch>, e: Evidence) {
    && !PreflightHolds(direct, e)
    && e.roster.RosterIds?
    && !NoAnchors(direct, e.roster.entries)
  }

  /** The requests one recovery sends, in order. */
  function Requests(matchId: nat, direct: Option<DirectMatch>, e: Evidence, c: Caches): seq<VendorCall> {
    if PreflightHolds(direct, e) then []
    else
      [RosterCall]
      + if ReachesAnchors(direct, e)
        then DemoRequests(direct)
             + HistoryCalls(RunFullPass(matchId, direct, e.roster.entries, e, c).classified.toFetch)
        else []
  }

  // --------------------------------------------------------------- local SQL that throws

  /** The durable read, or the write that follows a durable hit, throws. */
  predicate LookupThrows(c: Caches, id: nat, matchId: nat, sql: LocalSql) {
    id !in c.memory && (sql.cacheReadFails(id) || (ReadCached(c, id, matchId).Some? && sql.backfillFails(id)))
  }

  /** One of the reads that are made for missing anchors throws. */
  predicate StoresThrow(direct: Option<DirectMatch>, entries: seq<nat>, e: Evidence, sql: LocalSql) {
    var missing := MissingIds(direct, entries);
    var l := Locals(SetOf(missing), e);
    || (sql.recoveredReadFails && missing != [])
    || (sql.historyReadFails && Filter(missing, NotIn(l.recovered.Keys)) != [])
    || (sql.bufferedReadFails && Filter(missing, NotIn(l.recovered.Keys + l.history.Keys)) != [])
  }

  predicate SomeLookupThrows(ids: seq<nat>, matchId: nat, c: Caches, sql: LocalSql) {
    exists i :: 0 <= i < |ids| && LookupThrows(c, ids[i], matchId, sql)
  }

  predicate PassThrows(matchId: nat, direct: Option<DirectMatch>, entries: seq<nat>, e: Evidence, c: Caches,
        sql: LocalSql) {
    || StoresThrow(direct, entries, e, sql)
    || SomeLookupThrows(RunFullPass(matchId, direct, entries, e, c).unknown, matchId, c, sql)
  }

  /** The recovery rejects instead of returning. */
  predicate Throws(matchId: nat, direct: Option<DirectMatch>, e: Evidence, c: Caches, sql: LocalSql) {
    || (sql.preflightFails && Privates(KnownPlayers(direct)) == [])
    || (ReachesAnchors(direct, e) && PassThrows(matchId, direct, e.roster.entries, e, c, sql))
  }

  /** `i` of the lookups have been made, and nothing after them. */
  ghost predicate StoppedAt(now: Caches, unknown: seq<nat>, matchId: nat, before: Caches, i: nat) {
    i <= |unknown| && now == Classify(unknown[..i], matchId, before).caches
  }

  /** The caches a recovery leaves that rejects after `i` of its lookups. */
  function CachesAt(matchId: nat, direct: Option<DirectMatch>, e: Evidence, c: Caches, i: nat): Caches {
    if ReachesAnchors(direct, e) then
      var unknown := RunFullPass(matchId, direct, e.roster.entries, e, c).unknown;
      if i <= |unknown| then Classify(unknown[..i], matchId, c).caches else c
    else c
  }

  /** Where one lookup finds a history. */
  datatype Place = InMemory(matches: History) | InTable(matches: History) | Unknown

  function Filed(k: Classified, id: nat, place: Place, caches: Caches): Classified {
    match place
    case InMemory(matches) =>
      Classified(k.hits + [Lookup(id, matches, true)], k.toFetch, k.memoryHits + 1, k.durableHits, caches)
    case InTable(matches) =>
      Classified(k.hits + [Lookup(id, matches, true)], k.toFetch, k.memoryHits, k.durableHits + 1, caches)
    case Unknown => Classified(k.hits, k.toFetch + [id], k.memoryHits, k.durableHits, caches)
  }

  // ------------------------------------------------------------------- the source's loops

  /** The relay process: its memory map, the durable cache table, and the vendor requests it sends. */
  class RelayEngine {
    var memory: map<nat, History>
    var durable: map<nat, CacheRow>
    var vendorCalls: seq<VendorCall>
    var recoveryApiCalls: nat

    constructor ()
      ensures memory == map[] && durable == map[] && vendorCalls == []
    {
      memory, durable, vendorCalls, recoveryApiCalls := map[], map[], [], 0;
    }

    function State(): Caches
      reads this
    {
      Caches(memory, durable)
    }

    /** `apiRequest`: the request leaves, whatever comes back. */
    method SendRequest(call: VendorCall)
      modifies this`vendorCalls
      ensures vendorCalls == old(vendorCalls) + [call]
    {
      vendorCalls := vendorCalls + [call];
    }

    /** `countedApiRequest`. */
    method CountedRequest(call: VendorCall)
      modifies this`vendorCalls, this`recoveryApiCalls
      ensures vendorCalls == old(vendorCalls) + [call]
      ensures recoveryApiCalls == old(recoveryApiCalls) + 1
    {
      recoveryApiCalls := recoveryApiCalls + 1;
      SendRequest(call);
    }

    /** `cleanupFetchedPlayersCache`: forget the process map, keep the durable table. */
    method CleanupFetchedPlayersCache()
      modifies this`memory
      ensures memory == map[]
    {
      memory := map[];
    }

    /** One player nobody stored: memory first, then the durable table with its backfill. */
    method LookUpPlayer(id: nat, matchId: nat, sql: LocalSql) returns (thrown: bool, place: Place)
      modifies this`memory
      ensures thrown <==> LookupThrows(old(State()), id, matchId, sql)
      ensures thrown ==> State() == old(State())
      ensures !thrown ==>
                forall k: Classified :: k.caches == old(State()) ==>
                  ClassifyOne(k, id, matchId) == Filed(k, id, place, State())
    {
      hide ReadCached;
      if id in memory {
        return false, InMemory(memory[id]);
      }
      if sql.cacheReadFails(id) {
        return true, Unknown;
      }
      var cached := ReadCached(State(), id, matchId);
      if cached.None? {
        return false, Unknown;
      }
      if sql.backfillFails(id) {
        return true, Unknown;
      }
      memory := memory[id := cached.value];
      return false, InTable(cached.value);
    }

    /** The loop over the anchors nobody stored; it stops at the first statement that throws. */
    method LookUpCaches(ids: seq<nat>, matchId: nat, sql: LocalSql)
      returns (thrown: bool, hits: seq<Lookup>, toFetch: seq<nat>, memoryHits: nat, durableHits: nat)
      modifies this`memory
      ensures thrown <==> SomeLookupThrows(ids, matchId, old(State()), sql)
      ensures !thrown ==>
                Classified(hits, toFetch, memoryHits, durableHits, State()) == Classify(ids, matchId, old(State()))
      ensures thrown ==> exists i :: 0 <= i < |ids| && State() == Classify(ids[..i], matchId, old(State())).caches
    {
      thrown, hits, toFetch, memoryHits, durableHits := false, [], [], 0, 0;
      ghost var before := State();
      NothingClassified(matchId, before);
      NothingThrows(matchId, before, sql);
      hide Classify, ClassifyOne, ReadCached, LookupThrows, SomeLookupThrows;
      for i := 0 to |ids|
        invariant Classified(hits, toFetch, memoryHits, durableHits, State()) == Classify(ids[..i], matchId, before)
        invariant !thrown && !SomeLookupThrows(ids[..i], matchId, before, sql)
      {
        PrefixStep(ids, i);
        ClassifySnoc(ids[..i], ids[i], matchId, before);
        SomeLookupThrowsSnoc(ids[..i], ids[i], matchId, before, sql);
        LookupLater(ids[..i], ids[i], matchId, before, sql);
        ghost var k := Classified(hits, toFetch, memoryHits, durableHits, State());
        var failed, place := LookUpPlayer(ids[i], matchId, sql);
        if failed {
          SomeLookupThrowsEarly(ids, i + 1, matchId, before, sql);
          thrown := true;
          return;
        }
        assert Classify(ids[..i + 1], matchId, before) == Filed(k, ids[i], place, State());
        match place {
          case InMemory(matches) =>
            memoryHits := memoryHits + 1;
            hits := hits + [Lookup(ids[i], matches, true)];
          case InTable(matches) =>
            durableHits := durableHits + 1;
            hits := hits + [Lookup(ids[i], matches, true)];
          case Unknown =>
            toFetch := toFetch + [ids[i]];
        }
      }
      assert ids[..|ids|] == ids;
    }

    /** `writeCachedPlayerHistory`: upsert the player's whole history with its match index. */
    method WriteCachedPlayerHistory(id: nat, matches: History)
      modifies this`durable
      ensures durable == old(durable)[id := Written(matches)]
    {
      durable := durable[id := CacheRow(set row | row in matches && row.matchId > 0 :: row.matchId, matches)];
    }

    method FetchHistories(ids: seq<nat>, vendor: nat -> VendorHistory) returns (results: seq<Lookup>)
      modifies this
      ensures Fetched(results, State()) == Fetch(ids, vendor, old(State()))
      ensures vendorCalls == old(vendorCalls) + HistoryCalls(ids)
      ensures recoveryApiCalls == old(recoveryApiCalls) + |ids|
    {
      results := [];
      for i := 0 to |ids|
        invariant Fetched(results, State()) == Fetch(ids[..i], vendor, old(State()))
        invariant vendorCalls == old(vendorCalls) + HistoryCalls(ids[..i])
        invariant recoveryApiCalls == old(recoveryApiCalls) + i
      {
        PrefixStep(ids, i);
        var id := ids[i];
        HistoryCallsSnoc(ids[..i], id);
        CountedRequest(HistoryCall(id));
        match vendor(id) {
          case CallFailed =>
            results := results + [Lookup(id, [], false)];
          case Returned(matches, cached, entriesStored) =>
            memory := memory[id := matches];
            if cached {
              WriteCachedPlayerHistory(id, matches);
            }
            results := results + [if cached && entriesStored then Lookup(id, matches, true) else Lookup(id, [], false)];
        }
      }
      assert ids[..|ids|] == ids;
    }

    method HarvestTarget(results: seq<Lookup>, matchId: nat) returns (rows: seq<Player>)
      ensures rows == Harvest(results, matchId)
    {
      rows := [];
      for i := 0 to |results|
        invariant rows == Harvest(results[..i], matchId)
      {
        hide FindMatch, TargetRow;
        PrefixStep(results, i);
        var found := FindMatch(results[i].matches, matchId);
        rows := rows + if results[i].success && found.Some? then [TargetRow(found.value, results[i].playerId)] else [];
      }
      assert results[..|results|] == results;
    }

    method ReadFirstById(rows: seq<Player>, excluded: set<nat>) returns (kept: seq<Player>)
      ensures kept == FirstById(rows, excluded)
    {
      kept := [];
      var seen: set<nat> := {};
      for i := 0 to |rows|
        invariant kept == FirstById(rows[..i], excluded) && seen == Ids(kept)
      {
        hide Ids;
        PrefixStep(rows, i);
        var p := rows[i];
        if p.id > 0 && p.id !in excluded && p.id !in seen {
          seen := seen + {p.id};
          IdsSnoc(kept, p);
          kept := kept + [p];
        }
      }
      assert rows[..|rows|] == rows;
    }

    method LocalPreflightPass(direct: Option<DirectMatch>, e: Evidence) returns (r: Option<RecoveryResult>)
      requires recoveryApiCalls == 0
      ensures r == if PreflightHolds(direct, e) then Some(Preflight(direct, e)) else None
    {
      var known := KnownPlayers(direct);
      if Privates(known) != [] {
        return None;
      }
      var ids := RealIds(known);
      var recovered := ReadFirstById(Stored(e.preRecovered), ids);
      var history := ReadFirstById(e.preHistory, ids + Ids(recovered));
      var allHistory := ReadFirstById(e.preHistory, {});
      var buffered := ReadFirstById(e.preBuffered, ids + Ids(recovered) + Ids(history));
      var allBuffered := ReadFirstById(e.preBuffered, {});
      if |ids| + |recovered| + |history| + |buffered| != ROSTER_SIZE || !AuthoritativeShell(direct) {
        return None;
      }
      var score := ResolveSources(DirectObservations(direct), Results(allHistory + allBuffered));
      if score.None? {
        return None;
      }
      return Some(RecoveryResult(recovered + history + buffered, LocalPreflight, false, recoveryApiCalls,
                                 ShellOf(score)));
    }

    /** Everything after the roster step: local stores, caches, paid histories, harvest. */
    method PursueAnchors(matchId: nat, direct: Option<DirectMatch>, entries: seq<nat>, e: Evidence, sql: LocalSql)
      returns (pass: Option<FullPass>)
      modifies this
      ensures pass.None? <==> PassThrows(matchId, direct, entries, e, old(State()), sql)
      ensures pass.None? ==> vendorCalls == old(vendorCalls) && recoveryApiCalls == old(recoveryApiCalls)
      ensures pass.None? ==>
                var unknown := RunFullPass(matchId, direct, entries, e, old(State())).unknown;
                exists i: nat :: StoppedAt(State(), unknown, matchId, old(State()), i)
      ensures pass.Some? ==>
                && pass.value == RunFullPass(matchId, direct, entries, e, old(State()))
                && State() == pass.value.fetched.caches
                && vendorCalls == old(vendorCalls) + HistoryCalls(pass.value.classified.toFetch)
                && recoveryApiCalls == old(recoveryApiCalls) + |pass.value.classified.toFetch|
    {
      hide Classify, Fetch, Harvest, Pick, Locals, ResolveSources, Filter, LastAmong, FirstAmong, LookupThrows,
           StoresThrow, HistoryCalls;
      var missing := MissingIds(direct, entries);
      ghost var before := State();
      if StoresThrow(direct, entries, e, sql) {
        StopsAtStart(RunFullPass(matchId, direct, entries, e, before).unknown, matchId, before);
        return None;
      }
      var locals := Locals(SetOf(missing), e);
      var unknown := Filter(missing, NotIn(locals.Keys()));
      var thrown, hits, toFetch, memoryHits, durableHits := LookUpCaches(unknown, matchId, sql);
      if thrown {
        ghost var i :| 0 <= i < |unknown| && State() == Classify(unknown[..i], matchId, before).caches;
        assert StoppedAt(State(), RunFullPass(matchId, direct, entries, e, before).unknown, matchId, before, i);
        return None;
      }
      var looked := State();
      var results := FetchHistories(toFetch, e.vendor);
      var harvested := HarvestTarget(hits + results, matchId);
      var recovered := Pick(missing, locals.recovered) + Pick(missing, locals.history) + Pick(missing, locals.buffered)
                       + harvested + Privates(KnownPlayers(direct));
      pass := Some(FullPass(missing, locals, unknown,
                            Classified(hits, toFetch, memoryHits, durableHits, looked), Fetched(results, State()),
                            recovered,
                            ResolveSources(DirectObservations(direct), Results(recovered))));
    }

    /** From the demo call to the verdict. */
    method ConcludePass(matchId: nat, direct: Option<DirectMatch>, entries: seq<nat>, e: Evidence, sql: LocalSql)
      returns (r: Option<RecoveryResult>)
      requires recoveryApiCalls == 1
      modifies this
      ensures r.None? <==> PassThrows(matchId, direct, entries, e, old(State()), sql)
      ensures r.None? ==>
                && vendorCalls == old(vendorCalls) + DemoRequests(direct)
                && recoveryApiCalls == 1 + |DemoRequests(direct)|
                && var unknown := RunFullPass(matchId, direct, entries, e, old(State())).unknown;
                   exists i: nat :: StoppedAt(State(), unknown, matchId, old(State()), i)
      ensures r.Some? ==>
                var pass := RunFullPass(matchId, direct, entries, e, old(State()));
                && r.value == Conclude(direct, entries, pass)
                && r.value.calls == recoveryApiCalls
                && State() == pass.fetched.caches
                && vendorCalls == old(vendorCalls) + (DemoRequests(direct) + HistoryCalls(pass.classified.toFetch))
                && recoveryApiCalls == 1 + |DemoRequests(direct)| + |HistoryCalls(pass.classified.toFetch)|
    {
      hide RunFullPass, Unresolved, PassThrows, KnownPlayers, Privates, StoppedAt;
      if direct.None? {
        CountedRequest(DemoCall);
      }
      var pass := PursueAnchors(matchId, direct, entries, e, sql);
      if pass.None? {
        return None;
      }
      HistoryCallCount(pass.value.classified.toFetch);
      Associative(old(vendorCalls), DemoRequests(direct), HistoryCalls(pass.value.classified.toFetch));
      if Unresolved(direct, entries, pass.value) {
        return Some(RecoveryResult([], TargetHistoryUnresolved, false, recoveryApiCalls, ShellOf(pass.value.score)));
      }
      var anchorless := Positive(entries) == [];
      return Some(RecoveryResult(pass.value.recovered, if anchorless then NoPlayerAnchors else BrokenMatch, anchorless,
                                 recoveryApiCalls, ShellOf(pass.value.score)));
    }

    /** The whole recovery; None when a local statement throws. The count is the counter's. */
    method RecoverBrokenMatch(matchId: nat, direct: Option<DirectMatch>, e: Evidence, sql: LocalSql)
      returns (r: Option<RecoveryResult>)
      modifies this
      ensures r.None? <==> Throws(matchId, direct, e, old(State()), sql)
      ensures r.Some? ==>
                var run := Recover(matchId, direct, e, old(State()));
                && r.value == run.result
                && State() == run.caches
                && vendorCalls == old(vendorCalls) + Requests(matchId, direct, e, old(State()))
                && r.value.calls == recoveryApiCalls == |vendorCalls| - |old(vendorCalls)|
      ensures r.None? ==>
                && (exists i: nat :: State() == CachesAt(matchId, direct, e, old(State()), i))
                && vendorCalls == old(vendorCalls)
                                  + (if recoveryApiCalls == 0 then [] else [RosterCall] + DemoRequests(direct))
                && recoveryApiCalls == |vendorCalls| - |old(vendorCalls)|
    {
      hide RunFullPass, PreflightHolds, Preflight, Conclude, PassThrows, KnownPlayers, Privates, NoAnchors,
           HistoryCalls, DemoRequests;
      recoveryApiCalls := 0;
      if sql.preflightFails && Privates(KnownPlayers(direct)) == [] {
        NothingAdded(vendorCalls);
        RejectedEarly(matchId, direct, e, State());
        return None;
      }
      var preflight := LocalPreflightPass(direct, e);
      if preflight.Some? {
        PreflightIsFree(direct, e);
        NothingAdded(vendorCalls);
        return preflight;
      }
      CountedRequest(RosterCall);
      NothingAdded([RosterCall]);
      if e.roster.RosterFailed? {
        return Some(RecoveryResult([], RosterCallFailed, false, recoveryApiCalls, DirectShell(direct)));
      }
      var entries := e.roster.entries;
      if NoAnchors(direct, entries) {
        return Some(RecoveryResult([], NoPlayerAnchors, true, recoveryApiCalls, DirectShell(direct)));
      }
      ghost var toFetch := RunFullPass(matchId, direct, entries, e, State()).classified.toFetch;
      Associative(old(vendorCalls), [RosterCall], DemoRequests(direct));
      Associative(old(vendorCalls), [RosterCall], DemoRequests(direct) + HistoryCalls(toFetch));
      ghost var before := State();
      r := ConcludePass(matchId, direct, entries, e, sql);
      if r.None? {
        ghost var unknown := RunFullPass(matchId, direct, entries, e, before).unknown;
        ghost var i: nat :| StoppedAt(State(), unknown, matchId, before, i);
        StoppedMeans(State(), matchId, direct, e, before, i);
      }
    }
  }

  lemma HistoryCallsSnoc(ids: seq<nat>, id: nat)
    ensures HistoryCalls(ids + [id]) == HistoryCalls(ids) + [HistoryCall(id)]
  {
  }

  lemma HistoryCallCount(ids: seq<nat>)
    ensures |HistoryCalls(ids)| == |ids|
  {
  }

  lemma StopsAtStart(unknown: seq<nat>, matchId: nat, c: Caches)
    ensures StoppedAt(c, unknown, matchId, c, 0)
  {
    assert unknown[..0] == [];
  }

  lemma StoppedMeans(now: Caches, matchId: nat, direct: Option<DirectMatch>, e: Evidence, before: Caches, i: nat)
    requires ReachesAnchors(direct, e)
    requires StoppedAt(now, RunFullPass(matchId, direct, e.roster.entries, e, before).unknown, matchId, before, i)
    ensures now == CachesAt(matchId, direct, e, before, i)
  {
    hide RunFullPass, ReachesAnchors, Classify;
  }

  lemma RejectedEarly(matchId: nat, direct: Option<DirectMatch>, e: Evidence, c: Caches)
    ensures CachesAt(matchId, direct, e, c, 0) == c
  {
    hide RunFullPass, PreflightHolds, NoAnchors;
    if ReachesAnchors(direct, e) {
      StopsAtStart(RunFullPass(matchId, direct, e.roster.entries, e, c).unknown, matchId, c);
    }
  }

  lemma NothingClassified(matchId: nat, c: Caches)
    ensures Classify([], matchId, c) == Classified([], [], 0, 0, c)
  {
  }

  lemma PreflightIsFree(direct: Option<DirectMatch>, e: Evidence)
    ensures Preflight(direct, e).calls == 0
  {
  }

  lemma NothingThrows(matchId: nat, c: Caches, sql: LocalSql)
    ensures !SomeLookupThrows([], matchId, c, sql)
  {
  }

  lemma SomeLookupThrowsSnoc(ids: seq<nat>, id: nat, matchId: nat, c: Caches, sql: LocalSql)
    ensures SomeLookupThrows(ids + [id], matchId, c, sql)
            <==> SomeLookupThrows(ids, matchId, c, sql) || LookupThrows(c, id, matchId, sql)
  {
    hide LookupThrows;
    var more := ids + [id];
    assert more[|ids|] == id;
    if SomeLookupThrows(ids, matchId, c, sql) {
      var i :| 0 <= i < |ids| && LookupThrows(c, ids[i], matchId, sql);
      assert more[i] == ids[i];
    }
  }

  lemma SomeLookupThrowsEarly(ids: seq<nat>, n: nat, matchId: nat, c: Caches, sql: LocalSql)
    requires n <= |ids| && SomeLookupThrows(ids[..n], matchId, c, sql)
    ensures SomeLookupThrows(ids, matchId, c, sql)
  {
    hide LookupThrows;
    var i :| 0 <= i < n && LookupThrows(c, ids[..n][i], matchId, sql);
    assert ids[i] == ids[..n][i];
  }

  /** Whether a lookup throws does not depend on the lookups made before it. */
  lemma LookupLater(looked: seq<nat>, id: nat, matchId: nat, before: Caches, sql: LocalSql)
    requires !SomeLookupThrows(looked, matchId, before, sql)
    ensures LookupThrows(before, id, matchId, sql)
            <==> LookupThrows(Classify(looked, matchId, before).caches, id, matchId, sql)
  {
    ClassifyContract(looked, matchId, before);
    hide Classify;
    var now := Classify(looked, matchId, before).caches;
    assert ReadCached(now, id, matchId) == ReadCached(before, id, matchId);
    if id in now.memory && id !in before.memory {
      var i :| 0 <= i < |looked| && looked[i] == id;
    }
  }
}
