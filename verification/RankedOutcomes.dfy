/**
 * Which evidence leads a ranked match to which outcome, and what each outcome proves.
 */
module RankedOutcomes {
  import opened Seqs
  import opened RankedScore
  import opened RelayPlayers
  import opened CanonicalOrder
  import opened HistoryCaches
  import opened Recovery
  import opened Resolution
  import opened RecoveryCost
  import opened Outcomes

  // ------------------------------------------------------------------ clean evidence

  ghost predicate CleanHistory(h: History) {
    forall row :: row in h ==> !row.player.sentinel
  }

  /** Normalised history and buffer rows carry no `ret_msg`. */
  ghost predicate CleanEvidence(e: Evidence, c: Caches) {
    && CleanRows(e.preHistory) && CleanRows(e.preBuffered)
    && CleanRows(e.historyRows) && CleanRows(e.bufferedRows)
    && (forall id :: e.vendor(id).Returned? ==> CleanHistory(e.vendor(id).matches))
    && (forall id :: id in c.memory ==> CleanHistory(c.memory[id]))
    && (forall id :: id in c.durable ==> CleanHistory(c.durable[id].matches))
  }

  ghost predicate CleanLookups(results: seq<Lookup>) {
    forall r :: r in results ==> CleanHistory(r.matches)
  }

  ghost predicate CleanCaches(c: Caches) {
    && (forall id :: id in c.memory ==> CleanHistory(c.memory[id]))
    && (forall id :: id in c.durable ==> CleanHistory(c.durable[id].matches))
  }

  lemma {:induction false} ClassifiedAreClean(ids: seq<nat>, matchId: nat, c: Caches)
    requires CleanCaches(c)
    ensures CleanLookups(Classify(ids, matchId, c).hits)
    ensures CleanCaches(Classify(ids, matchId, c).caches)
  {
    if ids == [] {
    } else {
      hide Classify, CleanHistory;
      ClassifiedAreClean(ids[..|ids| - 1], matchId, c);
      Snoc(ids);
      ClassifySnoc(ids[..|ids| - 1], ids[|ids| - 1], matchId, c);
    }
  }

  lemma {:induction false} FetchedAreClean(ids: seq<nat>, vendor: nat -> VendorHistory, c: Caches)
    requires forall id :: vendor(id).Returned? ==> CleanHistory(vendor(id).matches)
    ensures CleanLookups(Fetch(ids, vendor, c).results)
  {
    if ids == [] {
    } else {
      FetchedAreClean(ids[..|ids| - 1], vendor, c);
    }
  }

  lemma {:induction false} FoundIsThere(matches: History, matchId: nat)
    ensures FindMatch(matches, matchId).Some? ==> FindMatch(matches, matchId).value in matches
  {
    if matches == [] {
    } else {
      FoundIsThere(matches[1..], matchId);
    }
  }

  lemma {:induction false} HarvestIsClean(results: seq<Lookup>, matchId: nat)
    requires CleanLookups(results)
    ensures CleanRows(Harvest(results, matchId))
  {
    if results == [] {
    } else {
      hide FindMatch;
      var last := results[|results| - 1];
      assert last in results;
      HarvestIsClean(results[..|results| - 1], matchId);
      FoundIsThere(last.matches, matchId);
    }
  }

  lemma {:induction false} PickIsClean(ids: seq<nat>, m: map<nat, Player>)
    requires forall id :: id in m ==> !m[id].sentinel
    ensures CleanRows(Pick(ids, m))
  {
    if ids == [] {
    } else {
      PickIsClean(ids[..|ids| - 1], m);
    }
  }

  lemma RecoveredAreClean(matchId: nat, direct: Option<DirectMatch>, entries: seq<nat>, e: Evidence, c: Caches)
    requires CleanEvidence(e, c)
    ensures CleanRows(RunFullPass(matchId, direct, entries, e, c).recovered)
  {
    hide Pick, Classify, Fetch, Harvest, Locals, Filter, CleanHistory, ResolveSources, MatchIdsOf;
    var pass := RunFullPass(matchId, direct, entries, e, c);
    LocalsAreDisjoint(SetOf(pass.missing), e);
    PickIsClean(pass.missing, pass.locals.recovered);
    PickIsClean(pass.missing, pass.locals.history);
    PickIsClean(pass.missing, pass.locals.buffered);
    ClassifiedAreClean(pass.unknown, matchId, c);
    FetchedAreClean(pass.classified.toFetch, e.vendor, pass.classified.caches);
    HarvestIsClean(pass.classified.hits + pass.fetched.results, matchId);
    FilterMembers(KnownPlayers(direct), UsablePrivate);
  }

  // ------------------------------------------------------------- what completion proves

  /** A shell that carries a full, coherent score. */
  predicate Proved(s: ShellScore) {
    && s.team1.Some? && s.team2.Some? && s.winner.Some?
    && Coherent(Score(s.team1.value, s.team2.value, s.winner.value))
  }

  lemma ResolvedShellIsProved(direct: seq<Observation>, history: seq<Observation>, other: ShellScore)
    requires ResolveSources(direct, history).Some?
    ensures Proved(OrElseShell(ShellOf(ResolveSources(direct, history)), other))
  {
    if Consensus(direct).Some? {
      ConsensusExact(direct, Consensus(direct).value);
    } else {
      ConsensusExact(history, Consensus(history).value);
    }
  }

  /** Every positive roster entry is among the players. */
  ghost predicate AnchorsPresent(entries: seq<nat>, players: seq<Player>) {
    forall id :: id in entries && id > 0 ==> id in PublicIds(players)
  }

  lemma ResolvedPassCoversAnchors(matchId: nat, direct: Option<DirectMatch>, e: Evidence, c: Caches)
    requires e.roster.RosterIds? && CleanEvidence(e, c)
    requires !Unresolved(direct, e.roster.entries, RunFullPass(matchId, direct, e.roster.entries, e, c))
    ensures AnchorsPresent(e.roster.entries,
                           Merge(KnownPlayers(direct), RunFullPass(matchId, direct, e.roster.entries, e, c).recovered))
  {
    hide RunFullPass, Merge, Filter, PublicIds, RealIds;
    var entries := e.roster.entries;
    var pass := RunFullPass(matchId, direct, entries, e, c);
    assert pass.missing == MissingIds(direct, entries) by { MissingOfPass(matchId, direct, entries, e, c); }
    RecoveredAreClean(matchId, direct, entries, e, c);
    KnownAreUsable(direct);
    UsableIds(pass.recovered);
    MergeRoster(KnownPlayers(direct), pass.recovered);
    FilterMembers(entries, (id: nat) => id > 0);
    FilterMembers(Positive(entries), NotIn(RealIds(KnownPlayers(direct))));
    FilterMembers(pass.missing, NotIn(RealIds(pass.recovered)));
    forall id | id in entries && id > 0
      ensures id in RealIds(KnownPlayers(direct)) || id in RealIds(pass.recovered)
    {
      assert id in Positive(entries);
      assert id in RealIds(KnownPlayers(direct)) || id in pass.missing;
      assert id !in Filter(pass.missing, NotIn(RealIds(pass.recovered)));
    }
  }

  lemma MissingOfPass(matchId: nat, direct: Option<DirectMatch>, entries: seq<nat>, e: Evidence, c: Caches)
    ensures RunFullPass(matchId, direct, entries, e, c).missing == MissingIds(direct, entries)
  {
  }

  // -------------------------------------------------------------- exact classification

  predicate PassUnresolved(matchId: nat, direct: Option<DirectMatch>, e: Evidence, c: Caches)
    requires e.roster.RosterIds?
  {
    Unresolved(direct, e.roster.entries, RunFullPass(matchId, direct, e.roster.entries, e, c))
  }

  /** `recovery_pending` exactly when the roster named anchors and the evidence left one of them open. */
  lemma PendingExactly(request: Request, direct: Option<DirectMatch>, e: Evidence, c: Caches)
    requires Entered(direct)
    ensures var out := ResolveRanked(request, direct, e, c);
            && (out.status == RecoveryPending
                <==> ReachesAnchors(direct, e) && PassUnresolved(request.matchId, direct, e, c))
            && (out.status == RecoveryPending ==>
                  && !out.result.value.terminal
                  && forall p :: p in out.result.value.players ==> p in KnownPlayers(direct))
  {
    hide PreflightHolds, NoAnchors, Unresolved, RunFullPass, Merge, Filter, Arrange, Preflight;
    PreflightSource(direct, e);
    var run := Recover(request.matchId, direct, e, c);
    if run.result.source.TargetHistoryUnresolved? {
      MergeInventsNothing(KnownPlayers(direct), []);
      PublishedPlayers(request, RecoveredMatchResult(direct, run.result).value);
    }
  }

  lemma PreflightSource(direct: Option<DirectMatch>, e: Evidence)
    ensures Preflight(direct, e).source == LocalPreflight && !Preflight(direct, e).terminal
  {
  }

  /** `limited` exactly for one to nine usable direct rows that no roster, or no anchor, can extend. */
  lemma LimitedExactly(request: Request, direct: Option<DirectMatch>, e: Evidence, c: Caches)
    requires Entered(direct)
    ensures ResolveRanked(request, direct, e, c).status == Limited
            <==> && direct.Some?
                 && 1 <= |KnownPlayers(direct)| <= 9
                 && !PreflightHolds(direct, e)
                 && (e.roster.RosterIds? && !NoAnchors(direct, e.roster.entries) ==>
                       Positive(e.roster.entries) == [] && !PassUnresolved(request.matchId, direct, e, c))
  {
    hide PreflightHolds, NoAnchors, Unresolved, RunFullPass, Merge, Filter, Arrange, Preflight, Positive, KnownPlayers;
    PreflightSource(direct, e);
  }

  /** The other statuses a ranked request can and cannot receive. */
  lemma RankedStatuses(request: Request, direct: Option<DirectMatch>, e: Evidence, c: Caches)
    ensures ResolveRanked(request, direct, e, c).status == CompleteDirect <==> !Entered(direct)
    ensures ResolveRanked(request, direct, e, c).status != RosterOnly
  {
    hide Recover, Merge, Filter, Arrange, KnownPlayers, NeedsRecovery;
  }

  // ------------------------------------------------------------------ outcome soundness

  /** What a recovered outcome owes its readers. */
  ghost predicate RecoveredSoundly(request: Request, direct: Option<DirectMatch>, e: Evidence, out: Outcome)
  {
    out.status == CompleteRecovered ==>
      && out.result.Some?
      && Proved(out.result.value.shell)
      && (if PreflightHolds(direct, e)
          then PublicIds(out.result.value.players)
               == RealIds(KnownPlayers(direct)) + Ids(Parts(KnownPlayers(direct), e).Rows())
          else e.roster.RosterIds? && AnchorsPresent(e.roster.entries, out.result.value.players))
      && (direct.Some? ==> |out.result.value.players| >= ROSTER_SIZE)
  }

  lemma FullPassSound(request: Request, direct: Option<DirectMatch>, e: Evidence, c: Caches)
    requires Entered(direct) && CleanEvidence(e, c) && ReachesAnchors(direct, e)
    requires ResolveRanked(request, direct, e, c).status == CompleteRecovered
    ensures RecoveredSoundly(request, direct, e, ResolveRanked(request, direct, e, c))
  {
    hide PreflightHolds, NoAnchors, Unresolved, RunFullPass, Merge, Filter, Arrange, Positive, KnownPlayers,
         PublicIds, CleanEvidence, ShellOf, Proved, OrElseShell, Preflight;
    var entries := e.roster.entries;
    var pass := RunFullPass(request.matchId, direct, entries, e, c);
    assert !PassUnresolved(request.matchId, direct, e, c) by {
      PendingExactly(request, direct, e, c);
    }
    var result := RecoveredMatchResult(direct, Conclude(direct, entries, pass)).value;
    ResolvedPassCoversAnchors(request.matchId, direct, e, c);
    MergeInventsNothing(KnownPlayers(direct), pass.recovered);
    PublishedPlayers(request, result);
    PassShellIsProved(request.matchId, direct, entries, e, c);
  }

  lemma PassShellIsProved(matchId: nat, direct: Option<DirectMatch>, entries: seq<nat>, e: Evidence, c: Caches)
    requires !Unresolved(direct, entries, RunFullPass(matchId, direct, entries, e, c))
    ensures Proved(OrElseShell(ShellOf(RunFullPass(matchId, direct, entries, e, c).score), DirectShell(direct)))
  {
    hide ShellOf, Proved, OrElseShell, Classify, Fetch, Harvest, Pick, Locals, Filter;
    var pass := RunFullPass(matchId, direct, entries, e, c);
    ResolvedShellIsProved(DirectObservations(direct), Results(pass.recovered), DirectShell(direct));
  }

  lemma PreflightSound(request: Request, direct: Option<DirectMatch>, e: Evidence, c: Caches)
    requires Entered(direct) && PreflightHolds(direct, e)
    requires ResolveRanked(request, direct, e, c).status == CompleteRecovered
    ensures RecoveredSoundly(request, direct, e, ResolveRanked(request, direct, e, c))
  {
    hide Recover, Merge, FirstById, Filter, Ids, PublicIds, DistinctIds, Arrange, PreflightHolds, RealIds,
         PreflightScore, Proved, RecoveredMatchResult, NeedsRecovery, KnownPlayers, Preflight, ResolveRanked;
    PreflightNeedsShell(direct, e);
    PreflightOutcome(request, direct, e, c);
    PartsExact(KnownPlayers(direct), e);
    PreflightShell(request, direct, e, c);
  }

  lemma PreflightShell(request: Request, direct: Option<DirectMatch>, e: Evidence, c: Caches)
    requires Entered(direct) && PreflightHolds(direct, e)
    requires ResolveRanked(request, direct, e, c).status == CompleteRecovered
    ensures ResolveRanked(request, direct, e, c).result.Some?
    ensures Proved(ResolveRanked(request, direct, e, c).result.value.shell)
  {
    hide Merge, FirstById, Filter, Arrange, Proved, NeedsRecovery, KnownPlayers, ShellOf, OrElseShell;
    ResolvedShellIsProved(DirectObservations(direct),
                          Results(FirstById(e.preHistory, {}) + FirstById(e.preBuffered, {})), DirectShell(direct));
  }

  /** Soundness for every request, every evidence and every cache state. */
  ghost predicate AlwaysSound(direct: Option<DirectMatch>) {
    forall request, e, c :: CleanEvidence(e, c) ==>
      RecoveredSoundly(request, direct, e, ResolveRanked(request, direct, e, c))
  }

  /**
   * Recovery of a direct response is sound exactly when the direct rows alone name fewer than
   * ten participants; from ten on, a failed roster call already publishes them as recovered.
   */
  lemma SoundExactly(direct: Option<DirectMatch>)
    requires Entered(direct)
    ensures AlwaysSound(direct) <==> |Merge(KnownPlayers(direct), [])| < ROSTER_SIZE
  {
    hide Merge, RecoveredSoundly, ResolveRanked, Entered, KnownPlayers, CleanEvidence;
    if |Merge(KnownPlayers(direct), [])| < ROSTER_SIZE {
      forall request, e, c | CleanEvidence(e, c)
        ensures RecoveredSoundly(request, direct, e, ResolveRanked(request, direct, e, c))
      {
        SmallPrefixSound(request, direct, e, c);
      }
    } else {
      var e := RosterFailureEvidence(KnownPlayers(direct));
      EmptyEvidenceIsClean(e);
      LargePrefixEscapes(direct, e);
    }
  }

  /** In particular no prefix of at most nine usable rows can be completed unsoundly. */
  lemma NineRowsAlwaysSound(direct: Option<DirectMatch>)
    requires Entered(direct) && |KnownPlayers(direct)| <= 9
    ensures AlwaysSound(direct)
  {
    hide Merge, AlwaysSound, Entered, KnownPlayers;
    MergedIsShorter(KnownPlayers(direct) + [], PrivateQuota(KnownPlayers(direct), []));
    assert Merge(KnownPlayers(direct), [])
           == Merged(KnownPlayers(direct) + [], PrivateQuota(KnownPlayers(direct), [])) by {
      MergeIsMerged(KnownPlayers(direct), []);
    }
    SoundExactly(direct);
  }

  lemma MergeIsMerged(a: seq<Player>, b: seq<Player>)
    ensures Merge(a, b) == Merged(a + b, PrivateQuota(a, b))
  {
  }

  lemma {:induction false} MergedIsShorter(rows: seq<Player>, quota: nat)
    ensures |Merged(rows, quota)| <= |rows|
  {
    if rows == [] {
    } else {
      hide Merged;
      MergedIsShorter(rows[..|rows| - 1], quota);
      Snoc(rows);
      MergedSnoc(rows[..|rows| - 1], rows[|rows| - 1], quota);
    }
  }

  lemma SmallPrefixSound(request: Request, direct: Option<DirectMatch>, e: Evidence, c: Caches)
    requires Entered(direct) && CleanEvidence(e, c)
    requires |Merge(KnownPlayers(direct), [])| < ROSTER_SIZE
    ensures RecoveredSoundly(request, direct, e, ResolveRanked(request, direct, e, c))
  {
    hide Merge, KnownPlayers, CleanEvidence, RunFullPass, PreflightHolds, Preflight, Filter, Arrange, NoAnchors,
         Unresolved,
         AnchorsPresent, Proved;
    if ResolveRanked(request, direct, e, c).status == CompleteRecovered {
      if PreflightHolds(direct, e) {
        PreflightSound(request, direct, e, c);
      } else if ReachesAnchors(direct, e) {
        FullPassSound(request, direct, e, c);
      } else {
        EarlyExitNeverCompletes(request, direct, e, c);
      }
    }
  }

  lemma EarlyExitNeverCompletes(request: Request, direct: Option<DirectMatch>, e: Evidence, c: Caches)
    requires Entered(direct) && !PreflightHolds(direct, e) && !ReachesAnchors(direct, e)
    requires |Merge(KnownPlayers(direct), [])| < ROSTER_SIZE
    ensures ResolveRanked(request, direct, e, c).status in {Limited, Dropped}
  {
    hide RunFullPass, PreflightHolds, Preflight, Filter, Arrange, NoAnchors, Unresolved, Merge;
    if direct.None? {
      assert Merge([], []) == [] by { MergeOfNothing(); }
    }
  }

  lemma MergeOfNothing()
    ensures Merge([], []) == []
  {
  }

  // ------------------------------------------------------------------------- witnesses

  function FreshId(rows: seq<Player>): (id: nat)
    ensures id > 0
    ensures forall p :: p in rows ==> p.id < id
  {
    if rows == [] then 1
    else
      var rest := FreshId(rows[..|rows| - 1]);
      if rows[|rows| - 1].id < rest then rest else rows[|rows| - 1].id + 1
  }

  const NO_RESULT := Observation(Missing, Missing, Missing)

  /** No stored row helps and the roster call fails; one stray row keeps the preflight from matching ten. */
  ghost function RosterFailureEvidence(known: seq<Player>): Evidence {
    var stray := Player(FreshId(known), false, 0, 0, 0, NO_RESULT, 0);
    Evidence(if |RealIds(known)| == ROSTER_SIZE then [stray] else [], [], [], RosterFailed, [], [], [],
             (id: nat) => CallFailed)
  }

  lemma EmptyEvidenceIsClean(e: Evidence)
    requires e.preHistory == [] && e.preBuffered == [] && e.historyRows == [] && e.bufferedRows == []
    requires forall id :: e.vendor(id).CallFailed?
    ensures CleanEvidence(e, Caches(map[], map[]))
  {
  }

  lemma StrayBreaksPreflight(direct: Option<DirectMatch>)
    ensures !PreflightHolds(direct, RosterFailureEvidence(KnownPlayers(direct)))
  {
    var known := KnownPlayers(direct);
    var e := RosterFailureEvidence(known);
    hide KnownPlayers, PreflightScore, RealIds;
    var stray := Player(FreshId(known), false, 0, 0, 0, NO_RESULT, 0);
    assert FirstById([], RealIds(known)) == [];
    assert Stored([]) == [];
    if |RealIds(known)| == ROSTER_SIZE {
      assert stray.id !in RealIds(known) by { FreshIsNew(known); }
      assert Stored(e.preRecovered) == [stray];
      FirstByIdSnoc([], stray, RealIds(known));
      assert [] + [stray] == [stray];
    }
  }

  lemma FreshIsNew(known: seq<Player>)
    ensures FreshId(known) !in RealIds(known)
  {
  }

  lemma LargePrefixEscapes(direct: Option<DirectMatch>, e: Evidence)
    requires Entered(direct) && e == RosterFailureEvidence(KnownPlayers(direct))
    requires |Merge(KnownPlayers(direct), [])| >= ROSTER_SIZE
    requires CleanEvidence(e, Caches(map[], map[]))
    ensures !AlwaysSound(direct)
  {
    hide Merge, PreflightHolds, Filter, Arrange, CleanEvidence, Proved, AnchorsPresent, RosterFailureEvidence;
    StrayBreaksPreflight(direct);
    RosterFails(KnownPlayers(direct));
    MergedIsShorter(KnownPlayers(direct) + [], PrivateQuota(KnownPlayers(direct), []));
    MergeIsMerged(KnownPlayers(direct), []);
    MergeOfNothing();
    var out := ResolveRanked(Request(1, None), direct, e, Caches(map[], map[]));
    assert out.status == CompleteRecovered;
    assert !RecoveredSoundly(Request(1, None), direct, e, out);
  }

  lemma RosterFails(known: seq<Player>)
    ensures RosterFailureEvidence(known).roster.RosterFailed?
  {
  }

  const SCORED := Observation(Numeric(4), Numeric(1), Numeric(1))

  function Scored(id: nat): Player {
    Player(id, false, 1, 0, 0, SCORED, 0)
  }

  /** A roster of two players, both with a scored history row and nothing else. */
  const TWO_PLAYERS :=
    Evidence([], [Scored(1), Scored(2)], [], RosterIds([1, 2], {}), [], [Scored(1), Scored(2)], [],
             (id: nat) => CallFailed)

  lemma TwoAnchors()
    ensures MissingIds(None, [1, 2]) == [1, 2] && Positive([1, 2]) == [1, 2] && PrivateProfiles([1, 2]) == 0
  {
    assert [1] + [2] == [1, 2] && RealIds([]) == {};
    FilterOne<nat>(1, (id: nat) => id > 0);
    FilterSnoc<nat>([1], 2, (id: nat) => id > 0);
    FilterOne<nat>(1, NotIn({}));
    FilterSnoc<nat>([1], 2, NotIn({}));
    FilterNone<nat>([1, 2], (id: nat) => id == 0);
  }

  lemma TwoPlayersPass(c: Caches)
    ensures var pass := RunFullPass(7, None, [1, 2], TWO_PLAYERS, c);
            pass.missing == [1, 2] && pass.recovered == [Scored(1), Scored(2)]
  {
    hide LastAmong, FirstAmong, Locals, Pick, Filter, Consensus;
    TwoAnchors();
    TwoLocals();
    NoPrivatesOfNobody();
    assert SetOf<nat>([1, 2]) == {1, 2};
    var l := LocalRows(map[], map[1 := Scored(1), 2 := Scored(2)], map[]);
    FilterNone<nat>([1, 2], NotIn(l.Keys()));
    TwoPicks(l.history);
    NothingPicked([1, 2]);
    var pass := RunFullPass(7, None, [1, 2], TWO_PLAYERS, c);
    assert pass.locals == l && pass.unknown == [];
    assert pass.classified.hits == [] && pass.fetched.results == [];
    assert pass.classified.hits + pass.fetched.results == [];
    assert Harvest([], 7) == [];
  }

  lemma NoPrivatesOfNobody()
    ensures Privates([]) == []
  {
  }

  lemma TwoPicks(m: map<nat, Player>)
    requires m == map[1 := Scored(1), 2 := Scored(2)]
    ensures Pick([1, 2], m) == [Scored(1), Scored(2)]
  {
    assert [1] + [2] == [1, 2] && [] + [1] == [1] && Pick([], m) == [];
    PickSnoc([], 1, m);
    PickSnoc([1], 2, m);
  }

  lemma NothingPicked(ids: seq<nat>)
    ensures Pick(ids, map[]) == []
  {
  }

  lemma TwoLocals()
    ensures Locals({1, 2}, TWO_PLAYERS) == LocalRows(map[], map[1 := Scored(1), 2 := Scored(2)], map[])
  {
    assert Stored([]) == [];
    assert [Scored(1)] + [Scored(2)] == [Scored(1), Scored(2)] && [] + [Scored(1)] == [Scored(1)];
    FirstAmongSnoc([], Scored(1), {1, 2});
    FirstAmongSnoc([Scored(1)], Scored(2), {1, 2});
    NothingAmong();
    var none: map<nat, Player> := map[];
    assert {1, 2} - none.Keys == {1, 2};
  }

  lemma NothingAmong()
    ensures forall wanted :: LastAmong([], wanted) == map[] && FirstAmong([], wanted) == map[]
  {
  }

  lemma TwoPlayersScore()
    ensures Consensus([]) == None
    ensures Consensus(Results([Scored(1), Scored(2)])) == Some(Score(4, 1, 1))
  {
    assert Results([Scored(1), Scored(2)]) == [SCORED] + [SCORED];
    FilterOne(SCORED, ScoreBearing);
    FilterSnoc([SCORED], SCORED, ScoreBearing);
  }

  lemma TwoPlayersMerge()
    ensures Merge([], [Scored(1), Scored(2)]) == [Scored(1), Scored(2)]
  {
    hide Merged, Filter;
    var rows := [Scored(1), Scored(2)];
    var quota := PrivateQuota([], rows);
    MergeIsMerged([], rows);
    assert [] + rows == [Scored(1)] + [Scored(2)] && [] + [Scored(1)] == [Scored(1)];
    MergedOfNothing(quota);
    MergedSnoc([], Scored(1), quota);
    MergedSnoc([Scored(1)], Scored(2), quota);
    FilterOne(Scored(1), UsablePublic);
  }

  lemma MergedOfNothing(quota: nat)
    ensures Merged([], quota) == [] && PublicIds([]) == {}
  {
  }

  /** Without a direct response nothing demands ten players: a two-player roster completes. */
  lemma NoDirectShellMayCompleteShort()
    ensures var out := ResolveRanked(Request(7, Some(RANKED_QUEUE)), None, TWO_PLAYERS, Caches(map[], map[]));
            out.status == CompleteRecovered && |out.result.value.players| == 2
  {
    hide Merge, Arrange, RunFullPass, Filter, Consensus;
    var c := Caches(map[], map[]);
    var request := Request(7, Some(RANKED_QUEUE));
    TwoAnchors();
    TwoPlayersPass(c);
    TwoPlayersScore();
    TwoPlayersMerge();
    var pass := RunFullPass(7, None, [1, 2], TWO_PLAYERS, c);
    assert pass.score.Some? by { ScoreOfPass(7, None, [1, 2], TWO_PLAYERS, c); }
    assert RealIds(pass.recovered) == {1, 2} by { assert Scored(1) in pass.recovered && Scored(2) in pass.recovered; }
    FilterNone<nat>([1, 2], NotIn({1, 2}));
    PublishedPlayers(request, RecoveredMatchResult(None, Conclude(None, [1, 2], pass)).value);
  }

  lemma ScoreOfPass(matchId: nat, direct: Option<DirectMatch>, entries: seq<nat>, e: Evidence, c: Caches)
    ensures var pass := RunFullPass(matchId, direct, entries, e, c);
            pass.score == ResolveSources(DirectObservations(direct), Results(pass.recovered))
  {
    hide Classify, Fetch, Harvest, Pick, Locals, Filter, ResolveSources;
  }

  /** Players 1 to `n`, no row with a score. */
  function Crowd(n: nat): seq<Player> {
    seq(n, (i: nat) => Player(i + 1, false, 1, 0, 0, Observation(Blank, Blank, Blank), 0))
  }

  function NumbersTo(n: nat): seq<nat> {
    seq(n, (i: nat) => i + 1)
  }

  /** Rows numbered like `ids` have exactly those ids. */
  lemma NumberedRows(rows: seq<Player>, ids: seq<nat>)
    requires |rows| == |ids| && forall i :: 0 <= i < |rows| ==> rows[i].id == ids[i] && ids[i] > 0
    ensures RealIds(rows) == SetOf(ids)
  {
    forall id: nat
      ensures id in RealIds(rows) <==> id in SetOf(ids)
    {
      if id in RealIds(rows) {
        var i :| 0 <= i < |rows| && rows[i].id == id;
        assert ids[i] == id;
      }
      if id in SetOf(ids) {
        var i :| 0 <= i < |ids| && ids[i] == id;
        assert rows[i].id == id;
      }
    }
  }

  lemma CrowdSize(n: nat)
    ensures |Crowd(n)| == n && |RealIds(Unscored(Crowd(n)))| == n && |RealIds(Stored(Crowd(n)))| == n
    ensures CleanRows(Unscored(Crowd(n)))
  {
    var ids := NumbersTo(n);
    assert |ids| == n && Distinct(ids);
    var rows, stored := Unscored(Crowd(n)), Stored(Crowd(n));
    assert forall i :: 0 <= i < n ==> rows[i].id == ids[i] && stored[i].id == ids[i] && ids[i] > 0;
    hide Crowd, NumbersTo, Stored, Unscored, RealIds;
    NumberedRows(rows, ids);
    NumberedRows(stored, ids);
    DistinctSize(ids);
  }

  /** Ten stored rows, and a direct response of two scored rows that are both sentinels. */
  const TEN_STORED := Evidence(Crowd(10), [], [], RosterFailed, [], [], [], (id: nat) => CallFailed)

  const SENTINEL := Scored(1).(sentinel := true)

  const EMPTY_SHELL :=
    Some(DirectMatch(RANKED_QUEUE, true, [SENTINEL, SENTINEL], ShellScore(Some(4), Some(1), Some(1))))

  lemma TenIds()
    ensures |FirstById(Stored(Crowd(10)), {})| == ROSTER_SIZE
  {
    var rows := Stored(Crowd(10));
    CrowdSize(10);
    hide FirstById, Crowd, Stored, RealIds, DistinctIds;
    FirstByIdExact(rows, {});
    assert RealIds(rows) - {} == RealIds(rows);
    DistinctIdsSize(FirstById(rows, {}));
  }

  lemma NobodyKnown()
    ensures KnownPlayers(EMPTY_SHELL) == [] && Privates([]) == [] && RealIds([]) == {}
    ensures NeedsRecovery(EMPTY_SHELL.value)
    ensures DirectObservations(EMPTY_SHELL) == [SCORED, SCORED]
  {
    FilterNone(Unscored([SENTINEL, SENTINEL]), Usable);
  }

  lemma NothingStored(excluded: set<nat>)
    ensures FirstById([], excluded) == []
  {
  }

  lemma CompletedHasResult(request: Request, direct: Option<DirectMatch>, e: Evidence, c: Caches)
    ensures ResolveRanked(request, direct, e, c).status == CompleteRecovered ==>
              ResolveRanked(request, direct, e, c).result.Some?
  {
    hide Recover, RecoveredMatchResult, Arrange, Filter, NeedsRecovery;
  }

  /** The local answer is real: a scored shell without rows completes from ten stored rows, at no cost. */
  lemma TenStoredRowsComplete(c: Caches)
    ensures PreflightHolds(EMPTY_SHELL, TEN_STORED)
    ensures var out := ResolveRanked(Request(7, Some(RANKED_QUEUE)), EMPTY_SHELL, TEN_STORED, c);
            && out.status == CompleteRecovered && out.result.Some?
            && out.result.value.calls == 0 && |out.result.value.players| == ROSTER_SIZE
  {
    hide FirstById, Consensus, Filter, ResolveRanked;
    NobodyKnown();
    TenIds();
    NothingStored(Ids(FirstById(Stored(Crowd(10)), {})));
    NothingStored(Ids(FirstById(Stored(Crowd(10)), {})) + Ids([]));
    TwoScores();
    FirstByIdExact(Stored(Crowd(10)), {});
    var p := Parts(KnownPlayers(EMPTY_SHELL), TEN_STORED);
    assert p.recovered == FirstById(Stored(Crowd(10)), {});
    assert {} + Ids(p.recovered) == Ids(p.recovered);
    assert p.history == [] && p.buffered == [];
    assert PreflightHolds(EMPTY_SHELL, TEN_STORED);
    assert p.Rows() == p.recovered;
    PreflightOutcome(Request(7, Some(RANKED_QUEUE)), EMPTY_SHELL, TEN_STORED, c);
    CompletedHasResult(Request(7, Some(RANKED_QUEUE)), EMPTY_SHELL, TEN_STORED, c);
  }

  lemma TwoScores()
    ensures Consensus([SCORED, SCORED]) == Some(Score(4, 1, 1))
  {
    TwoPlayersScore();
    assert Results([Scored(1), Scored(2)]) == [SCORED, SCORED];
  }

  /** A direct response with eleven usable rows and no score. */
  const ELEVEN_ROWS := Some(DirectMatch(RANKED_QUEUE, true, Crowd(11), NO_SHELL))

  /** The unsound side is inhabited: eleven direct rows enter recovery and can complete without a score. */
  lemma ElevenRowsEscape()
    ensures Entered(ELEVEN_ROWS) && |Merge(KnownPlayers(ELEVEN_ROWS), [])| >= ROSTER_SIZE
    ensures !AlwaysSound(ELEVEN_ROWS)
  {
    hide Merge, PublicIds, RealIds, Crowd, Unscored, Filter, AlwaysSound;
    var known := Unscored(Crowd(11));
    CrowdSize(11);
    FilterAll(known);
    KnownAreUsable(ELEVEN_ROWS);
    MergeRoster(known, []);
    NobodyIsPublic();
    assert PublicIds(known) + {} == PublicIds(known);
    SoundExactly(ELEVEN_ROWS);
  }

  lemma NobodyIsPublic()
    ensures PublicIds([]) == {}
  {
  }
}
