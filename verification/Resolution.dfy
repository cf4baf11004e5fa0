/**
 * From a recovery result to the one classified outcome a match request receives.
 */
module Resolution {
  import opened Seqs
  import opened RelayPlayers
  import opened CanonicalOrder
  import opened HistoryCaches
  import opened Recovery

  datatype Request = Request(matchId: nat, queueId: Option<nat>)

  datatype MatchResult = MatchResult(
    players: seq<Player>,
    attempted: bool,
    terminal: bool,
    pending: bool,
    limited: bool,
    calls: nat,
    shell: ShellScore
  )

  datatype Status = CompleteDirect | CompleteRecovered | RecoveryPending | Limited | RosterOnly | Dropped

  datatype Outcome = Outcome(matchId: nat, status: Status, result: Option<MatchResult>, roster: seq<nat>)

  const RANKED_QUEUE := 486

  /** Bot and PvE queues, whose responses omit the AI participants. */
  predicate VariableHumanRoster(queue: nat) {
    queue in {425, 453, 10297, 10348, 10362}
  }

  predicate NeedsRecovery(d: DirectMatch) {
    var usable := |KnownPlayers(Some(d))|;
    if VariableHumanRoster(d.queue) then usable == 0 else usable != ROSTER_SIZE
  }

  function OrElse<T>(a: Option<T>, b: Option<T>): Option<T> {
    if a.Some? then a else b
  }

  function OrElseShell(a: ShellScore, b: ShellScore): ShellScore {
    ShellScore(OrElse(a.team1, b.team1), OrElse(a.team2, b.team2), OrElse(a.winner, b.winner))
  }

  predicate LimitedRecovery(direct: Option<DirectMatch>, r: RecoveryResult) {
    && direct.Some?
    && 0 < |KnownPlayers(direct)| < ROSTER_SIZE
    && (r.terminal || r.source.NoPlayerAnchors? || r.source.RosterCallFailed?)
  }

  function RecoveredMatchResult(direct: Option<DirectMatch>, r: RecoveryResult): Option<MatchResult> {
    var players := Merge(KnownPlayers(direct), r.recovered);
    var pending := r.source.TargetHistoryUnresolved?;
    var limited := LimitedRecovery(direct, r);
    if direct.None? && players == [] && !pending then None
    else if direct.Some? && |players| < ROSTER_SIZE && !limited && !pending then None
    else
      Some(MatchResult(players, true, r.terminal, pending, limited, r.calls, OrElseShell(r.shell, DirectShell(direct))))
  }

  function DirectResult(d: DirectMatch): MatchResult {
    MatchResult(Unscored(d.players), false, false, false, false, 0, d.shell)
  }

  /** `terminalizeRelayMatch`. */
  function Terminalize(request: Request, result: Option<MatchResult>): Outcome {
    match result
    case None => Outcome(request.matchId, Dropped, None, [])
    case Some(r) =>
      var stable := r.(players := Arrange(Filter(r.players, Usable)));
      var status := if r.pending then RecoveryPending
                    else if r.limited then Limited
                    else if r.attempted then CompleteRecovered
                    else CompleteDirect;
      Outcome(request.matchId, status, Some(stable), [])
  }

  /** Full reconstruction: ranked matches, and exact ids whose queue nobody knows. */
  function ResolveRanked(request: Request, direct: Option<DirectMatch>, e: Evidence, c: Caches): Outcome {
    if direct.Some? && !NeedsRecovery(direct.value)
    then Terminalize(request, Some(DirectResult(direct.value)))
    else Terminalize(request, RecoveredMatchResult(direct, Recover(request.matchId, direct, e, c).result))
  }

  function DropMarked(entries: seq<nat>, marked: set<nat>): seq<nat> {
    if entries == [] then []
    else DropMarked(entries[..|entries| - 1], marked) + if |entries| - 1 in marked then [] else [entries[|entries| - 1]]
  }

  /** The roster call of presence recovery: its rows without a `ret_msg`, or nothing on failure. */
  function UsableRoster(r: Roster): seq<nat> {
    match r
    case RosterFailed => []
    case RosterIds(entries, marked) => DropMarked(entries, marked)
  }

  /** Roster-only recovery of known non-ranked queues. */
  function ResolvePresence(request: Request, direct: Option<DirectMatch>, e: Evidence): Outcome {
    var roster := UsableRoster(e.roster);
    if direct.Some? && !NeedsRecovery(direct.value) then Terminalize(request, Some(DirectResult(direct.value)))
    else if KnownPlayers(direct) != [] then
      Outcome(request.matchId, Limited,
              Some(MatchResult(KnownPlayers(direct), true, true, false, true, 0, DirectShell(direct))), roster)
    else if roster != [] then Outcome(request.matchId, RosterOnly, None, roster)
    else Outcome(request.matchId, Dropped, None, [])
  }

  function EffectiveQueue(request: Request, direct: Option<DirectMatch>): Option<nat> {
    if request.queueId.Some? then request.queueId
    else if direct.Some? && direct.value.queue > 0 then Some(direct.value.queue)
    else None
  }

  predicate RankedScope(queue: Option<nat>) {
    queue.None? || queue.value == RANKED_QUEUE
  }

  function ResolveIdentified(request: Request, direct: Option<DirectMatch>, e: Evidence, c: Caches): Outcome {
    var effective := request.(queueId := EffectiveQueue(request, direct));
    if direct.Some? && !NeedsRecovery(direct.value) then Terminalize(effective, Some(DirectResult(direct.value)))
    else if RankedScope(effective.queueId) then ResolveRanked(effective, direct, e, c)
    else ResolvePresence(effective, direct, e)
  }

  // ------------------------------------------------------- what a resolution asks for

  /** Recovery is entered: no direct response, or one that does not suffice. */
  predicate Entered(direct: Option<DirectMatch>) {
    direct.Some? ==> NeedsRecovery(direct.value)
  }

  /** The vendor requests of one resolution. */
  function RequestsOf(request: Request, direct: Option<DirectMatch>, e: Evidence, c: Caches): seq<VendorCall> {
    if !Entered(direct) then []
    else if RankedScope(EffectiveQueue(request, direct)) then Requests(request.matchId, direct, e, c)
    else [RosterCall]
  }

  function CachesAfter(request: Request, direct: Option<DirectMatch>, e: Evidence, c: Caches): Caches {
    if Entered(direct) && RankedScope(EffectiveQueue(request, direct))
    then Recover(request.matchId, direct, e, c).caches else c
  }

  /** Only a ranked recovery reads local tables outside a `try`. */
  predicate ResolutionThrows(request: Request, direct: Option<DirectMatch>, e: Evidence, c: Caches, sql: LocalSql) {
    Entered(direct) && RankedScope(EffectiveQueue(request, direct)) && Throws(request.matchId, direct, e, c, sql)
  }

  method ResolveRankedMatch(engine: RelayEngine, request: Request, direct: Option<DirectMatch>, e: Evidence,
        sql: LocalSql)
    returns (r: Option<Outcome>)
    modifies engine
    ensures r.None? <==> Entered(direct) && Throws(request.matchId, direct, e, old(engine.State()), sql)
    ensures r.Some? ==>
              && r.value == ResolveRanked(request, direct, e, old(engine.State()))
              && engine.vendorCalls == old(engine.vendorCalls)
                 + (if Entered(direct) then Requests(request.matchId, direct, e, old(engine.State())) else [])
              && engine.State() == if Entered(direct)
                                   then Recover(request.matchId, direct, e, old(engine.State())).caches
                                   else old(engine.State())
  {
    hide Recover, Requests, Throws, RecoveredMatchResult, NeedsRecovery, Terminalize;
    if direct.Some? && !NeedsRecovery(direct.value) {
      NothingAdded(engine.vendorCalls);
      return Some(Terminalize(request, Some(DirectResult(direct.value))));
    }
    var recovery := engine.RecoverBrokenMatch(request.matchId, direct, e, sql);
    if recovery.None? {
      return None;
    }
    return Some(Terminalize(request, RecoveredMatchResult(direct, recovery.value)));
  }

  /** Roster-only recovery; a failed roster call is caught. */
  method ResolvePresenceMatch(engine: RelayEngine, request: Request, direct: Option<DirectMatch>, e: Evidence)
    returns (r: Outcome)
    modifies engine`vendorCalls
    ensures r == ResolvePresence(request, direct, e)
    ensures engine.vendorCalls == old(engine.vendorCalls) + if Entered(direct) then [RosterCall] else []
  {
    hide NeedsRecovery, Terminalize, Filter, DropMarked;
    if direct.Some? && !NeedsRecovery(direct.value) {
      NothingAdded(engine.vendorCalls);
      return Terminalize(request, Some(DirectResult(direct.value)));
    }
    engine.SendRequest(RosterCall);
    var roster := UsableRoster(e.roster);
    var known := KnownPlayers(direct);
    if direct.Some? && |known| > 0 {
      return Outcome(request.matchId, Limited,
                     Some(MatchResult(known, true, true, false, true, 0, DirectShell(direct))), roster);
    }
    if |roster| > 0 {
      return Outcome(request.matchId, RosterOnly, None, roster);
    }
    return Outcome(request.matchId, Dropped, None, []);
  }

  method ResolveIdentifiedMatch(engine: RelayEngine, request: Request, direct: Option<DirectMatch>, e: Evidence,
        sql: LocalSql)
    returns (r: Option<Outcome>)
    modifies engine
    ensures r.None? <==> ResolutionThrows(request, direct, e, old(engine.State()), sql)
    ensures r.Some? ==>
              && r.value == ResolveIdentified(request, direct, e, old(engine.State()))
              && engine.vendorCalls == old(engine.vendorCalls) + RequestsOf(request, direct, e, old(engine.State()))
              && engine.State() == CachesAfter(request, direct, e, old(engine.State()))
  {
    hide Recover, Requests, Throws, ResolveRanked, ResolvePresence, NeedsRecovery, Terminalize;
    var effective := request.(queueId := EffectiveQueue(request, direct));
    if direct.Some? && !NeedsRecovery(direct.value) {
      NothingAdded(engine.vendorCalls);
      return Some(Terminalize(effective, Some(DirectResult(direct.value))));
    }
    if effective.queueId.None? || effective.queueId.value == RANKED_QUEUE {
      r := ResolveRankedMatch(engine, effective, direct, e, sql);
    } else {
      var outcome := ResolvePresenceMatch(engine, effective, direct, e);
      r := Some(outcome);
    }
  }
}
