/**
 * Exactly when the rows that the evidence supplies complete a match, and the score that is published.
 */
module Completion {
  import opened Seqs
  import opened RankedScore
  import opened RelayPlayers
  import opened CanonicalOrder
  import opened HistoryCaches
  import opened Recovery
  import opened Resolution
  import opened Outcomes
  import opened RankedOutcomes
  import opened RecoveredRosters
  import opened ScoreWitnesses
  import opened AnchorRows
  import opened Batch

  // ------------------------------------------------------------------ scores of the supply

  /** The row supplied for the missing anchor `q` bears a score. */
  ghost predicate BearsScore(matchId: nat, direct: Option<DirectMatch>, e: Evidence, c: Caches, q: nat) {
    Wanted(direct, q) && exists p :: Supplies(matchId, e, c, q, p) && ScoreBearing(p.result)
  }

  /** The roster positions whose supplied row bears a score. */
  ghost function BearingEntries(matchId: nat, direct: Option<DirectMatch>, entries: seq<nat>, e: Evidence,
        c: Caches): set<nat> {
    set i: nat | i < |entries| && BearsScore(matchId, direct, e, c, entries[i])
  }

  /** Every supplied row that bears a score reports `s`. */
  ghost predicate Agree(matchId: nat, direct: Option<DirectMatch>, entries: seq<nat>, e: Evidence, c: Caches,
        s: Score) {
    forall q, p :: q in entries && Wanted(direct, q) && Supplies(matchId, e, c, q, p) && ScoreBearing(p.result)
                   ==> Reported(p.result) == Some(s)
  }

  lemma GatheredBearing(ids: seq<nat>, q: nat, matchId: nat, e: Evidence, c: Caches)
    ensures Bearing(Results(Gathered(ids + [q], matchId, e, c)))
            == Bearing(Results(Gathered(ids, matchId, e, c))) + Bearing(Results(Supply(matchId, e, c, q)))
  {
    hide Supply, Gathered, Filter, Results;
    GatheredSnoc(ids, q, matchId, e, c);
    ResultsConcat(Gathered(ids, matchId, e, c), Supply(matchId, e, c, q));
    FilterConcat(Results(Gathered(ids, matchId, e, c)), Results(Supply(matchId, e, c, q)), ScoreBearing);
  }

  lemma SupplyBearing(matchId: nat, direct: Option<DirectMatch>, e: Evidence, c: Caches, q: nat)
    requires Wanted(direct, q)
    ensures |Bearing(Results(Supply(matchId, e, c, q)))| == if BearsScore(matchId, direct, e, c, q) then 1 else 0
  {
    hide Supplies, Supply, Filter;
    SupplyExactly(matchId, e, c, q);
    SupplyMembers(matchId, e, c, q);
    var supply := Supply(matchId, e, c, q);
    if supply == [] {
      assert Results(supply) == [];
      FilterNone(Results(supply), ScoreBearing);
    } else {
      assert supply == [supply[0]] && Results(supply) == [supply[0].result];
      FilterOne(supply[0].result, ScoreBearing);
      assert Supplies(matchId, e, c, q, supply[0]);
    }
  }

  /** As many supplied observations bear a score as roster positions do. */
  lemma {:induction false} BearingCount(matchId: nat, direct: Option<DirectMatch>, entries: seq<nat>, e: Evidence,
        c: Caches)
    ensures |Bearing(Results(Gathered(MissingIds(direct, entries), matchId, e, c)))|
            == |BearingEntries(matchId, direct, entries, e, c)|
  {
    if entries == [] {
      assert MissingIds(direct, []) == [];
      assert Gathered([], matchId, e, c) == [] && Results([]) == [];
      FilterNone(Results([]), ScoreBearing);
      assert BearingEntries(matchId, direct, [], e, c) == {};
    } else {
      hide MissingIds, Gathered, Filter, Results, Supply, BearsScore, Wanted;
      var init, q := entries[..|entries| - 1], entries[|entries| - 1];
      BearingCount(matchId, direct, init, e, c);
      Snoc(entries);
      MissingSnoc(direct, init, q);
      BearingEntriesSnoc(matchId, direct, init, q, e, c);
      if Wanted(direct, q) {
        GatheredBearing(MissingIds(direct, init), q, matchId, e, c);
        SupplyBearing(matchId, direct, e, c, q);
      } else {
        NothingAdded(MissingIds(direct, init));
        BearersAreWanted(matchId, direct, e, c, q);
      }
    }
  }

  lemma BearersAreWanted(matchId: nat, direct: Option<DirectMatch>, e: Evidence, c: Caches, q: nat)
    ensures BearsScore(matchId, direct, e, c, q) ==> Wanted(direct, q)
  {
  }

  lemma BearingEntriesSnoc(matchId: nat, direct: Option<DirectMatch>, entries: seq<nat>, q: nat, e: Evidence, c: Caches)
    ensures |BearingEntries(matchId, direct, entries + [q], e, c)|
            == |BearingEntries(matchId, direct, entries, e, c)| + if BearsScore(matchId, direct, e, c, q) then 1 else 0
  {
    hide BearsScore;
    var before, after := BearingEntries(matchId, direct, entries, e, c),
                         BearingEntries(matchId, direct, entries + [q], e, c);
    assert (entries + [q])[|entries|] == q;
    forall i: nat | i < |entries|
      ensures (entries + [q])[i] == entries[i]
    {
    }
    assert after == before + if BearsScore(matchId, direct, e, c, q) then {|entries|} else {};
  }

  lemma AgreeExactly(matchId: nat, direct: Option<DirectMatch>, entries: seq<nat>, e: Evidence, c: Caches, s: Score)
    ensures Unanimous(Results(Gathered(MissingIds(direct, entries), matchId, e, c)), s)
            <==> Agree(matchId, direct, entries, e, c, s)
  {
    hide MissingIds, Gathered, Supplies, Wanted;
    var gathered := Gathered(MissingIds(direct, entries), matchId, e, c);
    WantedAreMissing(direct, entries);
    WantedArePositive(direct);
    GatheredMembers(MissingIds(direct, entries), matchId, e, c);
    if Unanimous(Results(gathered), s) {
      forall q, p | q in entries && Wanted(direct, q) && Supplies(matchId, e, c, q, p) && ScoreBearing(p.result)
        ensures Reported(p.result) == Some(s)
      {
        assert p in gathered;
        var i :| 0 <= i < |gathered| && gathered[i] == p;
        assert Results(gathered)[i] == p.result;
      }
    }
    if Agree(matchId, direct, entries, e, c, s) {
      forall i | 0 <= i < |gathered| && ScoreBearing(Results(gathered)[i])
        ensures Reported(Results(gathered)[i]) == Some(s)
      {
        assert gathered[i] in gathered;
      }
    }
  }

  /** Two or more roster positions bring rows with a score, and all those rows report `s`. */
  ghost predicate SupplyProves(matchId: nat, direct: Option<DirectMatch>, entries: seq<nat>, e: Evidence, c: Caches,
        s: Score) {
    |BearingEntries(matchId, direct, entries, e, c)| >= 2 && Agree(matchId, direct, entries, e, c, s)
  }

  lemma SupplyProvesExactly(matchId: nat, direct: Option<DirectMatch>, entries: seq<nat>, e: Evidence, c: Caches,
        s: Score)
    ensures SupplyProves(matchId, direct, entries, e, c, s)
            <==> Proves(Results(Gathered(MissingIds(direct, entries), matchId, e, c)), s)
  {
    hide MissingIds, Gathered, Results, Bearing, Unanimous, BearingEntries, Agree;
    BearingCount(matchId, direct, entries, e, c);
    AgreeExactly(matchId, direct, entries, e, c, s);
  }

  // --------------------------------------------------------------------- order is no matter

  lemma ResultsSplit(left: seq<Player>, p: Player, right: seq<Player>)
    ensures multiset(Results(left + [p] + right)) == multiset(Results(left + right)) + multiset{p.result}
  {
    ResultsConcat(left, [p]);
    ResultsConcat(left + [p], right);
    ResultsConcat(left, right);
    assert Results([p]) == [p.result];
    hide Results;
  }

  lemma RestIsPermuted(init: seq<Player>, p: Player, left: seq<Player>, right: seq<Player>)
    requires multiset(init + [p]) == multiset(left + [p] + right)
    ensures multiset(init) == multiset(left + right)
  {
    assert multiset(init) == multiset(init + [p]) - multiset{p};
    assert multiset(left + right) == multiset(left + [p] + right) - multiset{p};
  }

  lemma {:induction false} ResultsPermute(a: seq<Player>, b: seq<Player>)
    requires multiset(a) == multiset(b)
    ensures multiset(Results(a)) == multiset(Results(b))
  {
    if a == [] {
      assert |multiset(b)| == 0;
    } else {
      hide Results;
      var init, last := a[..|a| - 1], a[|a| - 1];
      Snoc(a);
      assert last in multiset(b);
      var i :| 0 <= i < |b| && b[i] == last;
      assert b == b[..i] + [last] + b[i + 1..];
      RestIsPermuted(init, last, b[..i], b[i + 1..]);
      ResultsPermute(init, b[..i] + b[i + 1..]);
      ResultsSplit(init, last, []);
      ResultsSplit(b[..i], last, b[i + 1..]);
      NothingAdded(init);
      NothingAdded(init + [last]);
    }
  }

  /** The score of a pass comes from the direct observations, else from the supplied rows. */
  lemma PassScoreOfSupply(matchId: nat, direct: Option<DirectMatch>, entries: seq<nat>, e: Evidence, c: Caches)
    ensures RunFullPass(matchId, direct, entries, e, c).score
            == ResolveSources(DirectObservations(direct),
                              Results(Gathered(MissingIds(direct, entries), matchId, e, c)))
  {
    hide RunFullPass, MissingIds, Gathered, Results, Consensus, KnownPlayers, NoScores, Filter, DirectObservations;
    var recovered := RunFullPass(matchId, direct, entries, e, c).recovered;
    var gathered, known := Gathered(MissingIds(direct, entries), matchId, e, c), Privates(KnownPlayers(direct));
    RecoveredRows(matchId, direct, entries, e, c);
    ResultsPermute(recovered, gathered + known);
    ConsensusIgnoresOrder(Results(recovered), Results(gathered + known));
    KnownPrivatesAreUnscored(direct);
    NobodyUnscored();
    UnscoredDoNotCount([], gathered, known);
    assert [] + gathered + known == gathered + known;
    ScoreOfPass(matchId, direct, entries, e, c);
  }

  // ------------------------------------------------------------------------- completion

  /** Every missing anchor is named by some supplied row. */
  ghost predicate Covered(matchId: nat, direct: Option<DirectMatch>, entries: seq<nat>, e: Evidence, c: Caches) {
    forall q :: q in entries && Wanted(direct, q) ==> NamedBySupply(matchId, direct, entries, e, c, q)
  }

  ghost predicate NamedBySupply(matchId: nat, direct: Option<DirectMatch>, entries: seq<nat>, e: Evidence, c: Caches,
        q: nat) {
    exists o, p :: o in entries && Wanted(direct, o) && Supplies(matchId, e, c, o, p) && p.id == q
  }

  /** A score is proved, by the direct rows or by the supplied ones. */
  ghost predicate ScoreProved(matchId: nat, direct: Option<DirectMatch>, entries: seq<nat>, e: Evidence, c: Caches) {
    || (exists s :: Proves(DirectObservations(direct), s))
    || (exists s :: SupplyProves(matchId, direct, entries, e, c, s))
  }

  lemma SuppliesAreReal(matchId: nat, e: Evidence, c: Caches)
    ensures forall q, p :: q > 0 && Supplies(matchId, e, c, q, p) ==> p.id > 0
  {
  }

  /** The ids of the recovered rows are those of the supplied ones. */
  lemma RecoveredIds(matchId: nat, direct: Option<DirectMatch>, entries: seq<nat>, e: Evidence, c: Caches)
    ensures RealIds(RunFullPass(matchId, direct, entries, e, c).recovered)
            == RealIds(Gathered(MissingIds(direct, entries), matchId, e, c))
    ensures forall q :: q > 0 ==>
              (q in RealIds(Gathered(MissingIds(direct, entries), matchId, e, c))
               <==> NamedBySupply(matchId, direct, entries, e, c, q))
  {
    hide RunFullPass, MissingIds, Gathered, Supplies, Wanted, KnownPlayers, Filter;
    var recovered := RunFullPass(matchId, direct, entries, e, c).recovered;
    var gathered, known := Gathered(MissingIds(direct, entries), matchId, e, c), Privates(KnownPlayers(direct));
    RecoveredRows(matchId, direct, entries, e, c);
    FilterMembers(KnownPlayers(direct), UsablePrivate);
    forall p
      ensures p in recovered <==> p in gathered || p in known
    {
      assert p in recovered <==> p in multiset(recovered);
      assert p in gathered <==> p in multiset(gathered);
      assert p in known <==> p in multiset(known);
    }
    WantedAreMissing(direct, entries);
    WantedArePositive(direct);
    GatheredMembers(MissingIds(direct, entries), matchId, e, c);
  }

  /** A pass is resolved exactly when the supply covers the anchors and a score is proved. */
  lemma ResolvedExactly(matchId: nat, direct: Option<DirectMatch>, entries: seq<nat>, e: Evidence, c: Caches)
    ensures !Unresolved(direct, entries, RunFullPass(matchId, direct, entries, e, c))
            <==> && Covered(matchId, direct, entries, e, c)
                 && PrivateProfiles(entries) <= |Privates(KnownPlayers(direct))|
                 && ScoreProved(matchId, direct, entries, e, c)
  {
    hide RunFullPass, MissingIds, Gathered, Filter, RealIds, KnownPlayers, Results, DirectObservations, Proves,
         Consensus, NamedBySupply, Wanted, SupplyProves, PrivateProfiles;
    var pass := RunFullPass(matchId, direct, entries, e, c);
    var gathered := Gathered(MissingIds(direct, entries), matchId, e, c);
    MissingOfPass(matchId, direct, entries, e, c);
    WantedAreMissing(direct, entries);
    WantedArePositive(direct);
    RecoveredIds(matchId, direct, entries, e, c);
    EmptyFilter(pass.missing, NotIn(RealIds(pass.recovered)));
    PassScoreOfSupply(matchId, direct, entries, e, c);
    ProvedExactly(DirectObservations(direct));
    ProvedExactly(Results(gathered));
    forall s
      ensures SupplyProves(matchId, direct, entries, e, c, s) <==> Proves(Results(gathered), s)
    {
      SupplyProvesExactly(matchId, direct, entries, e, c, s);
    }
  }

  lemma EmptyFilter(ids: seq<nat>, keep: nat -> bool)
    ensures Filter(ids, keep) == [] <==> forall id :: id in ids ==> !keep(id)
  {
    FilterMembers(ids, keep);
    if Filter(ids, keep) != [] {
      assert Filter(ids, keep)[0] in Filter(ids, keep);
    }
  }

  /** The distinct real players of the direct and supplied rows, and the known private ones. */
  ghost function Participants(matchId: nat, direct: Option<DirectMatch>, entries: seq<nat>, e: Evidence, c: Caches): nat
  {
    |RealIds(KnownPlayers(direct)) + RealIds(Gathered(MissingIds(direct, entries), matchId, e, c))|
    + |Privates(KnownPlayers(direct))|
  }

  lemma RecoveredPrivates(matchId: nat, direct: Option<DirectMatch>, entries: seq<nat>, e: Evidence, c: Caches)
    ensures |Privates(RunFullPass(matchId, direct, entries, e, c).recovered)| == |Privates(KnownPlayers(direct))|
  {
    hide RunFullPass, MissingIds, Gathered, Supplies, Wanted, KnownPlayers, Filter;
    var recovered := RunFullPass(matchId, direct, entries, e, c).recovered;
    var gathered, known := Gathered(MissingIds(direct, entries), matchId, e, c), Privates(KnownPlayers(direct));
    RecoveredRows(matchId, direct, entries, e, c);
    WantedAreMissing(direct, entries);
    WantedArePositive(direct);
    GatheredMembers(MissingIds(direct, entries), matchId, e, c);
    SuppliesAreReal(matchId, e, c);
    FilterNone(gathered, UsablePrivate);
    FilterIdempotent(KnownPlayers(direct), UsablePrivate);
    FilterConcat(gathered, known, UsablePrivate);
    FilterCount(recovered, UsablePrivate);
    FilterCount(gathered + known, UsablePrivate);
    assert multiset(gathered + known) == multiset(recovered);
    assert multiset(Privates(recovered)) == multiset(Privates(gathered + known));
    assert [] + known == known;
    assert |multiset(Privates(recovered))| == |multiset(known)|;
  }

  lemma {:induction false} FilterIdempotent<T>(s: seq<T>, keep: T -> bool)
    ensures Filter(Filter(s, keep), keep) == Filter(s, keep)
  {
    if s == [] {
    } else {
      var init, last := s[..|s| - 1], s[|s| - 1];
      FilterIdempotent(init, keep);
      FilterSnoc(Filter(init, keep), last, keep);
      NothingAdded(Filter(init, keep));
    }
  }

  /** A reconstruction from clean evidence has one row for every participant. */
  lemma MergedSize(matchId: nat, direct: Option<DirectMatch>, entries: seq<nat>, e: Evidence, c: Caches)
    requires CleanEvidence(e, c)
    ensures |Merge(KnownPlayers(direct), RunFullPass(matchId, direct, entries, e, c).recovered)|
            == Participants(matchId, direct, entries, e, c)
  {
    hide RunFullPass, MissingIds, Gathered, Filter, RealIds, KnownPlayers, PublicIds, CleanEvidence, Merge, Wanted,
         NamedBySupply;
    RecoveredAreClean(matchId, direct, entries, e, c);
    KnownAreUsable(direct);
    UsableIds(RunFullPass(matchId, direct, entries, e, c).recovered);
    MergeRoster(KnownPlayers(direct), RunFullPass(matchId, direct, entries, e, c).recovered);
    RecoveredIds(matchId, direct, entries, e, c);
    RecoveredPrivates(matchId, direct, entries, e, c);
  }

  /**
   * A roster with missing anchors leads to a completed match exactly when supplied rows name all of
   * them, the direct rows hold the private players, a score is proved, and, next to a direct response,
   * there are ten participants.
   */
  lemma CompletionExactly(request: Request, direct: Option<DirectMatch>, e: Evidence, c: Caches, q: nat)
    requires Entered(direct) && !PreflightHolds(direct, e) && CleanEvidence(e, c)
    requires e.roster.RosterIds? && q in e.roster.entries && Wanted(direct, q)
    ensures var matchId, entries := request.matchId, e.roster.entries;
            ResolveRanked(request, direct, e, c).status == CompleteRecovered
            <==> && Covered(matchId, direct, entries, e, c)
                 && PrivateProfiles(entries) <= |Privates(KnownPlayers(direct))|
                 && ScoreProved(matchId, direct, entries, e, c)
                 && (direct.Some? ==> Participants(matchId, direct, entries, e, c) >= ROSTER_SIZE)
  {
    hide RunFullPass, MissingIds, Filter, KnownPlayers, CleanEvidence, Merge, Wanted, Covered, ScoreProved,
         Participants, PreflightHolds, Unresolved, Entered, PrivateProfiles, ResolveRanked;
    var matchId, entries := request.matchId, e.roster.entries;
    ResolvedExactly(matchId, direct, entries, e, c);
    MergedSize(matchId, direct, entries, e, c);
    AnchorIsReached(direct, e, q);
    StatusOfPass(request, direct, e, c);
    if direct.None? && Covered(matchId, direct, entries, e, c) {
      SomebodyIsMerged(matchId, entries, e, c, q);
    }
  }

  lemma AnchorIsReached(direct: Option<DirectMatch>, e: Evidence, q: nat)
    requires !PreflightHolds(direct, e)
    requires e.roster.RosterIds? && q in e.roster.entries && Wanted(direct, q)
    ensures ReachesAnchors(direct, e) && Positive(e.roster.entries) != []
  {
    hide PreflightHolds, KnownPlayers, MissingIds, Wanted, Filter;
    WantedAreMissing(direct, e.roster.entries);
    WantedArePositive(direct);
    FilterMembers(e.roster.entries, (id: nat) => id > 0);
    assert q in Positive(e.roster.entries);
  }

  /** With somebody to look for, the outcome hangs on the pass and on the merged roster. */
  lemma StatusOfPass(request: Request, direct: Option<DirectMatch>, e: Evidence, c: Caches)
    requires Entered(direct) && ReachesAnchors(direct, e) && Positive(e.roster.entries) != []
    ensures var pass := RunFullPass(request.matchId, direct, e.roster.entries, e, c);
            var players := Merge(KnownPlayers(direct), pass.recovered);
            ResolveRanked(request, direct, e, c).status == CompleteRecovered
            <==> && !Unresolved(direct, e.roster.entries, pass)
                 && if direct.Some? then |players| >= ROSTER_SIZE else players != []
  {
    hide RunFullPass, Filter, KnownPlayers, Merge, PreflightHolds, Unresolved, NoAnchors, Arrange, ShellOf,
         OrElseShell, Positive;
  }

  lemma SomebodyIsMerged(matchId: nat, entries: seq<nat>, e: Evidence, c: Caches, q: nat)
    requires CleanEvidence(e, c) && Covered(matchId, None, entries, e, c)
    requires q in entries && Wanted(None, q)
    ensures Merge(KnownPlayers(None), RunFullPass(matchId, None, entries, e, c).recovered) != []
  {
    hide RunFullPass, MissingIds, Filter, KnownPlayers, CleanEvidence, Merge, Wanted, NamedBySupply, RealIds, Gathered;
    MergedSize(matchId, None, entries, e, c);
    WantedArePositive(None);
    RecoveredIds(matchId, None, entries, e, c);
    assert q in RealIds(Gathered(MissingIds(None, entries), matchId, e, c));
    assert q in RealIds(KnownPlayers(None)) + RealIds(Gathered(MissingIds(None, entries), matchId, e, c));
  }

  ghost predicate HasOwnRow(matchId: nat, e: Evidence, c: Caches, q: nat) {
    exists p :: Supplies(matchId, e, c, q, p) && p.id == q
  }

  ghost predicate AllHaveOwnRows(matchId: nat, direct: Option<DirectMatch>, entries: seq<nat>, e: Evidence, c: Caches) {
    forall q :: q in entries && Wanted(direct, q) ==> HasOwnRow(matchId, e, c, q)
  }

  lemma OwnRowsCover(matchId: nat, direct: Option<DirectMatch>, entries: seq<nat>, e: Evidence, c: Caches)
    requires AllHaveOwnRows(matchId, direct, entries, e, c)
    ensures Covered(matchId, direct, entries, e, c)
  {
    hide Supplies, Wanted;
  }

  /** When every anchor has its own row, all of them take part. */
  lemma EveryoneTakesPart(matchId: nat, direct: Option<DirectMatch>, entries: seq<nat>, e: Evidence, c: Caches)
    requires AllHaveOwnRows(matchId, direct, entries, e, c)
    ensures Participants(matchId, direct, entries, e, c)
            >= |RealIds(KnownPlayers(direct)) + Anchors(entries)| + |Privates(KnownPlayers(direct))|
  {
    hide MissingIds, Filter, KnownPlayers, Wanted, NamedBySupply, RealIds, Gathered, Anchors;
    OwnRowsCover(matchId, direct, entries, e, c);
    RecoveredIds(matchId, direct, entries, e, c);
    WantedArePositive(direct);
    MissingMembers(direct, entries);
    WantedAreMissing(direct, entries);
    var known, supplied := RealIds(KnownPlayers(direct)), RealIds(Gathered(MissingIds(direct, entries), matchId, e, c));
    forall q | q in Anchors(entries) && q !in known
      ensures q in supplied
    {
      assert Wanted(direct, q);
    }
    SubsetSize(known + Anchors(entries), known + supplied);
  }

  /** What every completed recovery publishes as its score: a coherent one that two or more rows prove. */
  ghost predicate ProvenScore(request: Request, direct: Option<DirectMatch>, e: Evidence, c: Caches, s: Score) {
    || Proves(DirectObservations(direct), s)
    || (&& !(exists t :: Proves(DirectObservations(direct), t))
        && if PreflightHolds(direct, e)
           then Proves(Results(FirstById(e.preHistory, {}) + FirstById(e.preBuffered, {})), s)
           else e.roster.RosterIds? && SupplyProves(request.matchId, direct, e.roster.entries, e, c, s))
  }

  lemma CompletedScore(request: Request, direct: Option<DirectMatch>, e: Evidence, c: Caches)
    requires Entered(direct) && |Merge(KnownPlayers(direct), [])| < ROSTER_SIZE
    requires ResolveRanked(request, direct, e, c).status == CompleteRecovered
    ensures ResolveRanked(request, direct, e, c).result.Some?
    ensures exists s ::
              && ProvenScore(request, direct, e, c, s)
              && ResolveRanked(request, direct, e, c).result.value.shell
                 == ShellScore(Some(s.team1), Some(s.team2), Some(s.winner))
  {
    hide RunFullPass, MissingIds, Filter, KnownPlayers, Merge, PreflightHolds, Unresolved, Entered, NoAnchors, Arrange,
         Results, FirstById, DirectObservations, Gathered, Proves, SupplyProves, ResolveRanked, Consensus;
    if PreflightHolds(direct, e) {
      var history := Results(FirstById(e.preHistory, {}) + FirstById(e.preBuffered, {}));
      PreflightResolves(direct, e);
      var s := ResolvedScore(DirectObservations(direct), history);
      PreflightPublishes(request, direct, e, c, s);
      assert ProvenScore(request, direct, e, c, s);
    } else {
      if !ReachesAnchors(direct, e) {
        EarlyExitNeverCompletes(request, direct, e, c);
      }
      PendingExactly(request, direct, e, c);
      var matchId, entries := request.matchId, e.roster.entries;
      var history := Results(Gathered(MissingIds(direct, entries), matchId, e, c));
      PassScoreOfSupply(matchId, direct, entries, e, c);
      PassResolves(direct, entries, RunFullPass(matchId, direct, entries, e, c));
      var s := ResolvedScore(DirectObservations(direct), history);
      SupplyProvesExactly(matchId, direct, entries, e, c, s);
      PassPublishes(request, direct, e, c, s);
      assert ProvenScore(request, direct, e, c, s);
    }
  }

  lemma PreflightResolves(direct: Option<DirectMatch>, e: Evidence)
    requires PreflightHolds(direct, e)
    ensures PreflightScore(direct, e).Some?
    ensures PreflightScore(direct, e)
            == ResolveSources(DirectObservations(direct),
                              Results(FirstById(e.preHistory, {}) + FirstById(e.preBuffered, {})))
  {
  }

  lemma PassResolves(direct: Option<DirectMatch>, entries: seq<nat>, pass: FullPass)
    requires !Unresolved(direct, entries, pass)
    ensures pass.score.Some?
  {
  }

  /** The score two sources resolve to: the direct one, or the historic one where there is no direct one. */
  lemma ResolvedScore(direct: seq<Observation>, history: seq<Observation>) returns (s: Score)
    requires ResolveSources(direct, history).Some?
    ensures ResolveSources(direct, history).value.score == s
    ensures Proves(direct, s) || (!(exists t :: Proves(direct, t)) && Proves(history, s))
  {
    hide Consensus, Proves;
    s := ResolveSources(direct, history).value.score;
    ProvedExactly(direct);
    ProvesExactly(direct, s);
    ProvesExactly(history, s);
  }

  lemma ProvesExactly(observations: seq<Observation>, s: Score)
    ensures Consensus(observations) == Some(s) <==> Proves(observations, s)
  {
    hide Consensus, Bearing, Unanimous;
    ConsensusExact(observations, s);
  }

  lemma PreflightPublishes(request: Request, direct: Option<DirectMatch>, e: Evidence, c: Caches, s: Score)
    requires Entered(direct) && PreflightHolds(direct, e)
    requires ResolveRanked(request, direct, e, c).status == CompleteRecovered
    requires PreflightScore(direct, e).Some? && PreflightScore(direct, e).value.score == s
    ensures ResolveRanked(request, direct, e, c).result.Some?
    ensures ResolveRanked(request, direct, e, c).result.value.shell
            == ShellScore(Some(s.team1), Some(s.team2), Some(s.winner))
  {
    hide Filter, KnownPlayers, Merge, PreflightHolds, Arrange, FirstById, PreflightScore, NeedsRecovery;
  }

  lemma PassPublishes(request: Request, direct: Option<DirectMatch>, e: Evidence, c: Caches, s: Score)
    requires Entered(direct) && ReachesAnchors(direct, e)
    requires ResolveRanked(request, direct, e, c).status == CompleteRecovered
    requires var score := RunFullPass(request.matchId, direct, e.roster.entries, e, c).score;
             score.Some? && score.value.score == s
    ensures ResolveRanked(request, direct, e, c).result.Some?
    ensures ResolveRanked(request, direct, e, c).result.value.shell
            == ShellScore(Some(s.team1), Some(s.team2), Some(s.winner))
  {
    hide RunFullPass, Filter, KnownPlayers, Merge, PreflightHolds, Unresolved, NoAnchors, Arrange, NeedsRecovery;
  }

  /**
   * In particular a match completes when every missing anchor has a row of its own, locally or in a
   * history, two of those rows bear a score and all that do agree on `s`; and `s` is then published,
   * unless the direct rows prove one.
   */
  lemma SuppliedAnchorsComplete(request: Request, direct: Option<DirectMatch>, e: Evidence, c: Caches, i: nat, j: nat,
        s: Score)
    requires Entered(direct) && !PreflightHolds(direct, e) && CleanEvidence(e, c) && e.roster.RosterIds?
    requires AllHaveOwnRows(request.matchId, direct, e.roster.entries, e, c)
    requires PrivateProfiles(e.roster.entries) <= |Privates(KnownPlayers(direct))|
    requires i < j < |e.roster.entries|
    requires BearsScore(request.matchId, direct, e, c, e.roster.entries[i])
    requires BearsScore(request.matchId, direct, e, c, e.roster.entries[j])
    requires Agree(request.matchId, direct, e.roster.entries, e, c, s)
    requires direct.Some? ==> |RealIds(KnownPlayers(direct)) + Anchors(e.roster.entries)|
                              + |Privates(KnownPlayers(direct))| >= ROSTER_SIZE
    ensures ResolveRanked(request, direct, e, c).status == CompleteRecovered
    ensures ResolveRanked(request, direct, e, c).result.Some?
    ensures Consensus(DirectObservations(direct)).None? ==>
              ResolveRanked(request, direct, e, c).result.value.shell
              == ShellScore(Some(s.team1), Some(s.team2), Some(s.winner))
  {
    hide RunFullPass, MissingIds, Filter, KnownPlayers, CleanEvidence, Merge, Covered, AllHaveOwnRows, Supplies, Agree,
         Participants, PreflightHolds, Unresolved, Entered, PrivateProfiles, ResolveRanked, Wanted, RealIds, Anchors,
         Gathered, Consensus, Results, DirectObservations;
    var matchId, entries := request.matchId, e.roster.entries;
    var positions := BearingEntries(matchId, direct, entries, e, c);
    assert i in positions && j in positions;
    SubsetSize({i, j}, positions);
    assert SupplyProves(matchId, direct, entries, e, c, s);
    BearersAreWanted(matchId, direct, e, c, entries[i]);
    OwnRowsCover(matchId, direct, entries, e, c);
    EveryoneTakesPart(matchId, direct, entries, e, c);
    CompletionExactly(request, direct, e, c, entries[i]);
    AnchorIsReached(direct, e, entries[i]);
    CompletedHasResult(request, direct, e, c);
    if Consensus(DirectObservations(direct)).None? {
      SupplyProvesExactly(matchId, direct, entries, e, c, s);
      ProvesExactly(Results(Gathered(MissingIds(direct, entries), matchId, e, c)), s);
      PassScoreOfSupply(matchId, direct, entries, e, c);
      PassPublishes(request, direct, e, c, s);
    }
  }

  /** A completed resumption publishes the score its unshadowed history rows prove. */
  lemma ResumedScore(request: Request, recoveredRows: seq<Player>, historyRows: seq<Player>, demo: Demo)
    requires Resume(request, recoveredRows, historyRows, demo).outcome.status == CompleteRecovered
    ensures var out := Resume(request, recoveredRows, historyRows, demo).outcome;
            && out.result.Some?
            && exists s :: && Proves(Results(Unshadowed(recoveredRows, historyRows)), s)
                           && out.result.value.shell == ShellScore(Some(s.team1), Some(s.team2), Some(s.winner))
  {
    hide FirstById, Consensus, Results, Stored, StoredParticipants, Unshadowed, Proves, Filter, Arrange;
    StoredParticipantsExactly(recoveredRows, historyRows);
    NoDirectRows();
    var s := Consensus(Results(StoredParticipants(recoveredRows, historyRows))).value;
    ProvesExactly(Results(Unshadowed(recoveredRows, historyRows)), s);
  }

  // ---------------------------------------------------------------------------- witness

  /** A roster of two players nobody knows, whose histories the vendor returns. */
  const TWO_HISTORIES :=
    Evidence([], [], [], RosterIds([1, 2], {}), [], [], [],
             (id: nat) => Returned([HistoryRow(7, Scored(id))], true, true))

  /** Two paid histories that agree complete a match that nothing else is known about. */
  lemma TwoPaidHistoriesComplete()
    ensures var out := ResolveRanked(Request(7, Some(RANKED_QUEUE)), None, TWO_HISTORIES, Caches(map[], map[]));
            && out.status == CompleteRecovered && out.result.Some?
            && out.result.value.shell == ShellScore(Some(4), Some(1), Some(1))
  {
    hide ResolveRanked, Merge, Consensus, Supplies, PreflightHolds, CleanEvidence, Filter, Participants, Wanted;
    var c := Caches(map[], map[]);
    var request := Request(7, Some(RANKED_QUEUE));
    TwoPaidRows(c);
    TwoAnchors();
    NobodyKnownDirectly();
    TwoPlayersScore();
    if PreflightHolds(None, TWO_HISTORIES) {
      PreflightNeedsShell(None, TWO_HISTORIES);
    }
    SuppliedAnchorsComplete(request, None, TWO_HISTORIES, c, 0, 1, Score(4, 1, 1));
  }

  lemma TwoPaidRows(c: Caches)
    requires c == Caches(map[], map[])
    ensures CleanEvidence(TWO_HISTORIES, c)
    ensures AllHaveOwnRows(7, None, [1, 2], TWO_HISTORIES, c)
    ensures BearsScore(7, None, TWO_HISTORIES, c, 1) && BearsScore(7, None, TWO_HISTORIES, c, 2)
    ensures Agree(7, None, [1, 2], TWO_HISTORIES, c, Score(4, 1, 1))
  {
    hide Supplies;
    forall q: nat | q > 0
      ensures HasOwnRow(7, TWO_HISTORIES, c, q) && BearsScore(7, None, TWO_HISTORIES, c, q)
      ensures forall p :: Supplies(7, TWO_HISTORIES, c, q, p) ==> p == Scored(q)
    {
      PaidRow(c, q);
      SupplyExactly(7, TWO_HISTORIES, c, q);
      assert Scored(q).id == q && ScoreBearing(Scored(q).result);
    }
  }

  lemma PaidRow(c: Caches, q: nat)
    requires c == Caches(map[], map[])
    ensures Supplies(7, TWO_HISTORIES, c, q, Scored(q))
  {
    var h := [HistoryRow(7, Scored(q))];
    assert h[0] == HistoryRow(7, Scored(q));
    assert FirstRow(h, 7, HistoryRow(7, Scored(q)));
    assert PaidFor(7, TWO_HISTORIES, c, q, HistoryRow(7, Scored(q)));
    assert Names(Scored(q), HistoryRow(7, Scored(q)), q);
  }
}
