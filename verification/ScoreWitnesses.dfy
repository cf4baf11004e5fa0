/**
 * Which rows can prove a recovered score. Rows read back from `match_players` carry none, nor do
 * direct rows as participants; only history, buffer and vendor rows do, next to the direct
 * observations themselves.
 */
module ScoreWitnesses {
  import opened Seqs
  import opened CanonicalOrder
  import opened RankedScore
  import opened RelayPlayers
  import opened HistoryCaches
  import opened Recovery
  import opened Resolution
  import opened Outcomes
  import opened RecoveryCost
  import opened RankedOutcomes
  import opened Batch

  ghost predicate NoScores(rows: seq<Player>) {
    forall p :: p in rows ==> p.result == UNSCORED
  }

  lemma ResultsConcat(a: seq<Player>, b: seq<Player>)
    ensures Results(a + b) == Results(a) + Results(b)
  {
  }

  lemma NothingBears(rows: seq<Player>)
    requires NoScores(rows)
    ensures Bearing(Results(rows)) == []
  {
    forall o | o in Results(rows)
      ensures !ScoreBearing(o)
    {
      var i :| 0 <= i < |rows| && Results(rows)[i] == o;
      assert rows[i] in rows;
    }
    FilterNone(Results(rows), ScoreBearing);
  }

  /** Rows without scores change nothing, wherever they stand. */
  lemma UnscoredDoNotCount(before: seq<Player>, scored: seq<Player>, after: seq<Player>)
    requires NoScores(before) && NoScores(after)
    ensures Bearing(Results(before + scored + after)) == Bearing(Results(scored))
    ensures Consensus(Results(before + scored + after)) == Consensus(Results(scored))
  {
    NothingBears(before);
    NothingBears(after);
    ResultsConcat(before, scored);
    ResultsConcat(before + scored, after);
    FilterConcat(Results(before), Results(scored), ScoreBearing);
    FilterConcat(Results(before) + Results(scored), Results(after), ScoreBearing);
    hide Filter, Results;
    assert [] + Bearing(Results(scored)) == Bearing(Results(scored));
    NothingAdded(Bearing(Results(scored)));
  }

  /** Two or more score-bearing observations, all reporting `s`. */
  ghost predicate Proves(observations: seq<Observation>, s: Score) {
    |Bearing(observations)| >= 2 && Unanimous(observations, s)
  }

  // ----------------------------------------------------------------------- a full pass

  /** The recovered rows that can carry a score: local history, local buffer, harvested histories. */
  function HistoryShare(matchId: nat, direct: Option<DirectMatch>, entries: seq<nat>, e: Evidence,
        c: Caches): seq<Player> {
    var pass := RunFullPass(matchId, direct, entries, e, c);
    Pick(pass.missing, pass.locals.history) + Pick(pass.missing, pass.locals.buffered)
    + Harvest(pass.classified.hits + pass.fetched.results, matchId)
  }

  lemma {:induction false} PickedAreStored(ids: seq<nat>, rows: seq<Player>, wanted: set<nat>)
    requires NoScores(rows)
    ensures NoScores(Pick(ids, LastAmong(rows, wanted)))
  {
    if ids == [] {
    } else {
      hide LastAmong;
      PickedAreStored(ids[..|ids| - 1], rows, wanted);
      ReadersAreKeyed(rows, wanted);
    }
  }

  lemma KnownPrivatesAreUnscored(direct: Option<DirectMatch>)
    ensures NoScores(Privates(KnownPlayers(direct)))
  {
    FilterMembers(KnownPlayers(direct), UsablePrivate);
    if direct.Some? {
      FilterMembers(Unscored(direct.value.players), Usable);
    }
  }

  /** The score of a pass is decided by the direct observations and the history share alone. */
  lemma PassScoreExactly(matchId: nat, direct: Option<DirectMatch>, entries: seq<nat>, e: Evidence, c: Caches)
    ensures RunFullPass(matchId, direct, entries, e, c).score
            == ResolveSources(DirectObservations(direct), Results(HistoryShare(matchId, direct, entries, e, c)))
  {
    hide Pick, Classify, Fetch, Harvest, Filter, LastAmong, FirstAmong, Results, Consensus, Stored, KnownPlayers,
         NoScores;
    var pass := RunFullPass(matchId, direct, entries, e, c);
    var stored := Pick(pass.missing, pass.locals.recovered);
    var share := HistoryShare(matchId, direct, entries, e, c);
    var known := Privates(KnownPlayers(direct));
    StoredAreUnscored(e.recoveredRows);
    PickedAreStored(pass.missing, Stored(e.recoveredRows), SetOf(pass.missing));
    KnownPrivatesAreUnscored(direct);
    UnscoredDoNotCount(stored, share, known);
    assert pass.recovered == stored + share + known;
  }

  lemma StoredAreUnscored(rows: seq<Player>)
    ensures NoScores(Stored(rows))
  {
  }

  // ------------------------------------------------------------------- completion

  /** The participants whose scores a completion can rest on, when the direct rows prove none. */
  function Witnesses(request: Request, direct: Option<DirectMatch>, e: Evidence, c: Caches): seq<Player> {
    if PreflightHolds(direct, e) then FirstById(e.preHistory, {}) + FirstById(e.preBuffered, {})
    else if e.roster.RosterIds? then HistoryShare(request.matchId, direct, e.roster.entries, e, c)
    else []
  }

  lemma ProvedByHistory(direct: seq<Observation>, history: seq<Observation>)
    requires Consensus(direct).None?
    ensures ResolveSources(direct, history).Some? ==> exists s :: Proves(history, s)
  {
    if Consensus(history).Some? {
      ConsensusExact(history, Consensus(history).value);
      assert Proves(history, Consensus(history).value);
    }
  }

  /**
   * Without two agreeing direct observations a recovery completes only when two or more
   * score-bearing rows come from history, buffer or vendor, and all of those agree.
   */
  lemma CompletionNeedsTwoWitnesses(request: Request, direct: Option<DirectMatch>, e: Evidence, c: Caches)
    requires Entered(direct) && |Merge(KnownPlayers(direct), [])| < ROSTER_SIZE
    requires Consensus(DirectObservations(direct)).None?
    requires ResolveRanked(request, direct, e, c).status == CompleteRecovered
    ensures exists s :: Proves(Results(Witnesses(request, direct, e, c)), s)
  {
    hide RunFullPass, Merge, Filter, Arrange, Positive, KnownPlayers, ShellOf, OrElseShell, Entered, Consensus,
         Results, HistoryShare, FirstById, Proves, DirectObservations, ResolveRanked;
    if PreflightHolds(direct, e) {
      ProvedByHistory(DirectObservations(direct), Results(Witnesses(request, direct, e, c)));
    } else {
      hide PreflightHolds;
      if !ReachesAnchors(direct, e) {
        EarlyExitNeverCompletes(request, direct, e, c);
      }
      PendingExactly(request, direct, e, c);
      PassScoreExactly(request.matchId, direct, e.roster.entries, e, c);
      ProvedByHistory(DirectObservations(direct), Results(Witnesses(request, direct, e, c)));
    }
  }

  /** Once the anchors are accounted for, a pass stays unresolved exactly for want of such a proof. */
  lemma UnresolvedExactly(matchId: nat, direct: Option<DirectMatch>, entries: seq<nat>, e: Evidence, c: Caches)
    requires var pass := RunFullPass(matchId, direct, entries, e, c);
             && Filter(pass.missing, NotIn(RealIds(pass.recovered))) == []
             && PrivateProfiles(entries) <= |Privates(KnownPlayers(direct))|
    ensures Unresolved(direct, entries, RunFullPass(matchId, direct, entries, e, c))
            <==> && !(exists s :: Proves(DirectObservations(direct), s))
                 && !(exists s :: Proves(Results(HistoryShare(matchId, direct, entries, e, c)), s))
  {
    hide RunFullPass, Filter, RealIds, KnownPlayers, Results, HistoryShare, DirectObservations, Proves;
    PassScoreExactly(matchId, direct, entries, e, c);
    ProvedExactly(DirectObservations(direct));
    ProvedExactly(Results(HistoryShare(matchId, direct, entries, e, c)));
  }

  lemma ProvedExactly(observations: seq<Observation>)
    ensures Consensus(observations).Some? <==> exists s :: Proves(observations, s)
  {
    hide Consensus, Bearing, Unanimous;
    forall s
      ensures Consensus(observations) == Some(s) <==> Proves(observations, s)
    {
      ConsensusExact(observations, s);
    }
    if Consensus(observations).Some? {
      assert Proves(observations, Consensus(observations).value);
    }
  }

  // ------------------------------------------------------- stored rows starve the score

  lemma {:induction false} HarvestIsShort(results: seq<Lookup>, matchId: nat)
    ensures |Harvest(results, matchId)| <= |results|
  {
    if results == [] {
    } else {
      hide FindMatch;
      HarvestIsShort(results[..|results| - 1], matchId);
    }
  }

  /** There are no more witnesses than missing anchors that `match_players` does not answer. */
  lemma ShareSize(matchId: nat, direct: Option<DirectMatch>, entries: seq<nat>, e: Evidence, c: Caches)
    ensures var pass := RunFullPass(matchId, direct, entries, e, c);
            |HistoryShare(matchId, direct, entries, e, c)| + |Pick(pass.missing, pass.locals.recovered)|
            <= |pass.missing|
  {
    var pass := RunFullPass(matchId, direct, entries, e, c);
    AnchorsAreSplit(matchId, direct, entries, e, c);
    ResultCount(matchId, direct, entries, e, c);
    hide RunFullPass, Pick, Harvest;
    HarvestIsShort(pass.classified.hits + pass.fetched.results, matchId);
  }

  lemma ResultCount(matchId: nat, direct: Option<DirectMatch>, entries: seq<nat>, e: Evidence, c: Caches)
    ensures var pass := RunFullPass(matchId, direct, entries, e, c);
            |pass.classified.hits + pass.fetched.results|
            == pass.classified.memoryHits + pass.classified.durableHits + |pass.classified.toFetch|
  {
    hide Pick, Classify, Fetch, Harvest, Filter, Locals, Faithful;
    var pass := RunFullPass(matchId, direct, entries, e, c);
    ClassifyContract(pass.unknown, matchId, c);
    FetchContract(pass.classified.toFetch, e.vendor, pass.classified.caches);
  }

  lemma FewRowsProveNothing(rows: seq<Player>)
    requires |rows| <= 1
    ensures !(exists s :: Proves(Results(rows), s))
  {
    hide Unanimous;
    BearingIsShort(Results(rows));
  }

  lemma BearingIsShort(observations: seq<Observation>)
    ensures |observations| <= 1 ==> |Bearing(observations)| <= 1
  {
    if |observations| == 1 {
      assert observations == [observations[0]];
      FilterOne(observations[0], ScoreBearing);
    }
  }

  /**
   * Where the direct rows prove no score, a match with anchors cannot complete any more once
   * `match_players` answers for all of its missing anchors but one.
   */
  lemma StoredRowsStarveTheScore(request: Request, direct: Option<DirectMatch>, e: Evidence, c: Caches)
    requires Entered(direct) && !PreflightHolds(direct, e) && |Merge(KnownPlayers(direct), [])| < ROSTER_SIZE
    requires Consensus(DirectObservations(direct)).None? && e.roster.RosterIds?
    requires var pass := RunFullPass(request.matchId, direct, e.roster.entries, e, c);
             |Pick(pass.missing, pass.locals.recovered)| + 1 >= |pass.missing|
    ensures ResolveRanked(request, direct, e, c).status != CompleteRecovered
  {
    hide RunFullPass, Merge, KnownPlayers, Entered, Consensus, PreflightHolds, HistoryShare, DirectObservations,
         ResolveRanked, Pick, Proves, Results;
    if ResolveRanked(request, direct, e, c).status == CompleteRecovered {
      CompletionNeedsTwoWitnesses(request, direct, e, c);
      ShareSize(request.matchId, direct, e.roster.entries, e, c);
      FewRowsProveNothing(HistoryShare(request.matchId, direct, e.roster.entries, e, c));
    }
  }

  // ------------------------------------------------------------------------ resumption

  /** First-by-id over a list is first-by-id over its parts, the second shadowed by the first. */
  lemma {:induction false} FirstByIdConcat(a: seq<Player>, b: seq<Player>)
    ensures FirstById(a + b, {}) == FirstById(a, {}) + FirstById(b, RealIds(a))
  {
    if b == [] {
      NothingAdded(a);
      NothingAdded(FirstById(a, {}));
      NothingStored(RealIds(a));
    } else {
      hide FirstById;
      var init, p := b[..|b| - 1], b[|b| - 1];
      var first, second := FirstById(a, {}), FirstById(init, RealIds(a));
      FirstByIdConcat(a, init);
      Snoc(b);
      Associative(a, init, [p]);
      FirstByIdSnoc(a + init, p, {});
      FirstByIdSnoc(init, p, RealIds(a));
      FirstByIdExact(a, {});
      IdsConcat(first, second);
      assert RealIds(a) - {} == RealIds(a);
      Associative(first, second, [p]);
    }
  }

  /** History participants that no stored row stands in front of. */
  function Unshadowed(recoveredRows: seq<Player>, historyRows: seq<Player>): seq<Player> {
    FirstById(historyRows, RealIds(Stored(recoveredRows)))
  }

  lemma FirstAreUnscored(rows: seq<Player>, excluded: set<nat>)
    requires NoScores(rows)
    ensures NoScores(FirstById(rows, excluded))
  {
    hide FirstById;
    FirstByIdExact(rows, excluded);
  }

  /** What a resumption can decide on: the number of stored ids, and the unshadowed history rows. */
  lemma StoredParticipantsExactly(recoveredRows: seq<Player>, historyRows: seq<Player>)
    ensures var players := StoredParticipants(recoveredRows, historyRows);
            var unshadowed := Unshadowed(recoveredRows, historyRows);
            && |players| == |RealIds(Stored(recoveredRows))| + |unshadowed|
            && Consensus(Results(players)) == Consensus(Results(unshadowed))
  {
    hide FirstById, Consensus, Results, RealIds, DistinctIds, Stored, NoScores;
    var stored := Stored(recoveredRows);
    var first, unshadowed := FirstById(stored, {}), Unshadowed(recoveredRows, historyRows);
    FirstByIdConcat(stored, historyRows);
    FirstByIdExact(stored, {});
    DistinctIdsSize(first);
    assert RealIds(stored) - {} == RealIds(stored);
    StoredAreUnscored(recoveredRows);
    FirstAreUnscored(stored, {});
    NobodyUnscored();
    UnscoredDoNotCount(first, unshadowed, []);
    NothingAdded(first + unshadowed);
  }

  lemma NobodyUnscored()
    ensures NoScores([])
  {
  }

  /**
   * Resumption completes exactly when stored and unshadowed history rows make ten participants, two
   * or more of the latter bear scores that all agree, and the demo shell is authoritative.
   */
  lemma ResumptionExactly(request: Request, recoveredRows: seq<Player>, historyRows: seq<Player>, demo: Demo)
    ensures var unshadowed := Unshadowed(recoveredRows, historyRows);
            Resume(request, recoveredRows, historyRows, demo).outcome.status == CompleteRecovered
            <==> && |RealIds(Stored(recoveredRows))| + |unshadowed| == ROSTER_SIZE
                 && (exists s :: Proves(Results(unshadowed), s))
                 && AuthoritativeDemo(request, demo)
  {
    ResumeExactly(request, recoveredRows, historyRows, demo);
    StoredParticipantsExactly(recoveredRows, historyRows);
    hide FirstById, Consensus, Results, RealIds, Stored, Resume, StoredParticipants, Unshadowed, Proves;
    var players := StoredParticipants(recoveredRows, historyRows);
    ProvedExactly(Results(Unshadowed(recoveredRows, historyRows)));
    NoDirectRows();
    assert ResolveSources([], Results(players)).Some? <==> Consensus(Results(players)).Some?;
  }

  lemma NoDirectRows()
    ensures Consensus([]).None?
  {
  }

  /** Nine stored rows end it: resumption can never complete, whatever history and demo offer. */
  lemma NineStoredRowsNeverResume(request: Request, recoveredRows: seq<Player>, historyRows: seq<Player>, demo: Demo)
    requires |RealIds(Stored(recoveredRows))| >= ROSTER_SIZE - 1
    ensures Resume(request, recoveredRows, historyRows, demo).outcome.status == RecoveryPending
  {
    ResumeExactly(request, recoveredRows, historyRows, demo);
    ResumptionExactly(request, recoveredRows, historyRows, demo);
    hide FirstById, Consensus, Results, RealIds, Stored, Resume, StoredParticipants, Unshadowed, Proves;
    var unshadowed := Unshadowed(recoveredRows, historyRows);
    if |unshadowed| <= 1 {
      FewRowsProveNothing(unshadowed);
    }
  }
}
