/**
 * Who is in a completed roster: nobody but the direct rows and the roster anchors, as long as every
 * history names its own player for the target match.
 */
module RecoveredRosters {
  import opened Seqs
  import opened CanonicalOrder
  import opened RankedScore
  import opened RelayPlayers
  import opened HistoryCaches
  import opened Recovery
  import opened Resolution
  import opened Outcomes
  import opened RecoveryCost
  import opened RankedOutcomes

  /** In player `q`'s history the rows of this match name nobody or `q`. */
  ghost predicate Own(matches: History, q: nat, matchId: nat) {
    forall row :: row in matches && row.matchId == matchId ==> row.player.id == 0 || row.player.id == q
  }

  ghost predicate OwnCaches(c: Caches, matchId: nat) {
    && (forall q :: q in c.memory ==> Own(c.memory[q], q, matchId))
    && (forall q :: q in c.durable ==> Own(c.durable[q].matches, q, matchId))
  }

  ghost predicate OwnHistories(e: Evidence, c: Caches, matchId: nat) {
    && OwnCaches(c, matchId)
    && (forall q :: e.vendor(q).Returned? ==> Own(e.vendor(q).matches, q, matchId))
  }

  ghost predicate OwnLookups(results: seq<Lookup>, ids: set<nat>, matchId: nat) {
    forall r :: r in results ==> r.playerId in ids && Own(r.matches, r.playerId, matchId)
  }

  /** The stored histories answer for queried players and are their own. */
  lemma {:induction false} ClassifiedAreOwn(ids: seq<nat>, all: set<nat>, matchId: nat, c: Caches)
    requires OwnCaches(c, matchId) && SetOf(ids) <= all
    ensures OwnLookups(Classify(ids, matchId, c).hits, all, matchId)
    ensures OwnCaches(Classify(ids, matchId, c).caches, matchId)
    ensures SetOf(Classify(ids, matchId, c).toFetch) <= all
  {
    if ids == [] {
    } else {
      hide Classify, Own;
      var init, id := ids[..|ids| - 1], ids[|ids| - 1];
      assert id in ids && forall i :: i in init ==> i in ids;
      ClassifiedAreOwn(init, all, matchId, c);
      Snoc(ids);
      ClassifySnoc(init, id, matchId, c);
    }
  }

  lemma {:induction false} FetchedAreOwn(ids: seq<nat>, all: set<nat>, vendor: nat -> VendorHistory, c: Caches,
        matchId: nat)
    requires forall q :: vendor(q).Returned? ==> Own(vendor(q).matches, q, matchId)
    requires SetOf(ids) <= all
    ensures OwnLookups(Fetch(ids, vendor, c).results, all, matchId)
  {
    if ids == [] {
    } else {
      var init, id := ids[..|ids| - 1], ids[|ids| - 1];
      assert id in ids && forall i :: i in init ==> i in ids;
      FetchedAreOwn(init, all, vendor, c, matchId);
    }
  }

  ghost predicate Within(rows: seq<Player>, ids: set<nat>) {
    forall p :: p in rows ==> p.id in ids
  }

  lemma {:induction false} HarvestIsOwn(results: seq<Lookup>, ids: set<nat>, matchId: nat)
    requires OwnLookups(results, ids, matchId)
    ensures Within(Harvest(results, matchId), ids)
  {
    if results == [] {
    } else {
      hide FindMatch;
      var last := results[|results| - 1];
      assert last in results;
      HarvestIsOwn(results[..|results| - 1], ids, matchId);
      FoundIsThere(last.matches, matchId);
      FindMatchExact(last.matches, matchId);
    }
  }

  lemma {:induction false} PickIsWithin(ids: seq<nat>, m: map<nat, Player>)
    requires forall id :: id in m ==> m[id].id == id
    ensures Within(Pick(ids, m), SetOf(ids))
  {
    if ids == [] {
    } else {
      var init := ids[..|ids| - 1];
      PickIsWithin(init, m);
      assert ids[|ids| - 1] in ids && forall id :: id in init ==> id in ids;
    }
  }

  /** Every recovered row is a known private row or carries the id of a missing anchor. */
  lemma RecoveredAreAnchors(matchId: nat, direct: Option<DirectMatch>, entries: seq<nat>, e: Evidence, c: Caches,
        p: Player)
    requires OwnHistories(e, c, matchId)
    requires p in RunFullPass(matchId, direct, entries, e, c).recovered
    ensures p.id in MissingIds(direct, entries) || p in Privates(KnownPlayers(direct))
  {
    hide Pick, Classify, Fetch, Harvest, Locals, Filter, Own, ResolveSources, KnownPlayers, Privates, MissingIds;
    var pass := RunFullPass(matchId, direct, entries, e, c);
    var missing := SetOf(pass.missing);
    LocalsAreDisjoint(missing, e);
    PickIsWithin(pass.missing, pass.locals.recovered);
    PickIsWithin(pass.missing, pass.locals.history);
    PickIsWithin(pass.missing, pass.locals.buffered);
    FilterMembers(pass.missing, NotIn(pass.locals.Keys()));
    assert SetOf(pass.unknown) <= missing;
    ClassifiedAreOwn(pass.unknown, missing, matchId, c);
    FetchedAreOwn(pass.classified.toFetch, missing, e.vendor, pass.classified.caches, matchId);
    HarvestIsOwn(pass.classified.hits + pass.fetched.results, missing, matchId);
  }

  function Anchors(entries: seq<nat>): set<nat> {
    SetOf(Positive(entries))
  }

  lemma MissingMembers(direct: Option<DirectMatch>, entries: seq<nat>)
    ensures forall id :: id in MissingIds(direct, entries)
                         <==> id in Anchors(entries) && id !in RealIds(KnownPlayers(direct))
    ensures forall id :: id in Anchors(entries) <==> id in entries && id > 0
  {
    hide Filter, KnownPlayers, RealIds;
    FilterMembers(entries, (id: nat) => id > 0);
    FilterMembers(Positive(entries), NotIn(RealIds(KnownPlayers(direct))));
  }

  /** A resolved pass leaves exactly the direct public ids and the anchors. */
  lemma PassRosterExactly(matchId: nat, direct: Option<DirectMatch>, e: Evidence, c: Caches)
    requires e.roster.RosterIds? && CleanEvidence(e, c) && OwnHistories(e, c, matchId)
    requires !Unresolved(direct, e.roster.entries, RunFullPass(matchId, direct, e.roster.entries, e, c))
    ensures var pass := RunFullPass(matchId, direct, e.roster.entries, e, c);
            PublicIds(Merge(KnownPlayers(direct), pass.recovered))
            == RealIds(KnownPlayers(direct)) + Anchors(e.roster.entries)
  {
    hide RunFullPass, Merge, Filter, PublicIds, RealIds, MissingIds, Unresolved, CleanEvidence, OwnHistories,
         KnownPlayers, Anchors;
    var entries := e.roster.entries;
    var known := KnownPlayers(direct);
    var pass := RunFullPass(matchId, direct, entries, e, c);
    ResolvedPassCoversAnchors(matchId, direct, e, c);
    RecoveredAreClean(matchId, direct, entries, e, c);
    KnownAreUsable(direct);
    UsableIds(pass.recovered);
    MergeRoster(known, pass.recovered);
    MissingMembers(direct, entries);
    RecoveredIdsAreAnchors(matchId, direct, entries, e, c);
  }

  lemma RecoveredIdsAreAnchors(matchId: nat, direct: Option<DirectMatch>, entries: seq<nat>, e: Evidence, c: Caches)
    requires OwnHistories(e, c, matchId)
    ensures RealIds(RunFullPass(matchId, direct, entries, e, c).recovered) <= Anchors(entries)
  {
    hide RunFullPass, Filter, MissingIds, OwnHistories, KnownPlayers, Anchors;
    var recovered := RunFullPass(matchId, direct, entries, e, c).recovered;
    MissingMembers(direct, entries);
    FilterMembers(KnownPlayers(direct), UsablePrivate);
    forall p | p in recovered && p.id > 0
      ensures p.id in Anchors(entries)
    {
      RecoveredAreAnchors(matchId, direct, entries, e, c, p);
    }
  }

  /** A completed reconstruction holds the direct public ids and the roster anchors, and nobody else. */
  lemma CompletedRosterExactly(request: Request, direct: Option<DirectMatch>, e: Evidence, c: Caches)
    requires Entered(direct) && !PreflightHolds(direct, e) && |Merge(KnownPlayers(direct), [])| < ROSTER_SIZE
    requires CleanEvidence(e, c) && OwnHistories(e, c, request.matchId)
    requires ResolveRanked(request, direct, e, c).status == CompleteRecovered
    ensures e.roster.RosterIds?
    ensures PublicIds(ResolveRanked(request, direct, e, c).result.value.players)
            == RealIds(KnownPlayers(direct)) + Anchors(e.roster.entries)
  {
    hide PreflightHolds, NoAnchors, Unresolved, RunFullPass, Merge, Filter, Arrange, Positive, KnownPlayers,
         PublicIds, CleanEvidence, OwnHistories, ShellOf, OrElseShell, Anchors, RealIds, Entered;
    if !ReachesAnchors(direct, e) {
      EarlyExitNeverCompletes(request, direct, e, c);
    }
    var entries := e.roster.entries;
    var pass := RunFullPass(request.matchId, direct, entries, e, c);
    PendingExactly(request, direct, e, c);
    PassRosterExactly(request.matchId, direct, e, c);
    assert Recover(request.matchId, direct, e, c).result == Conclude(direct, entries, pass);
    var result := RecoveredMatchResult(direct, Conclude(direct, entries, pass)).value;
    MergeInventsNothing(KnownPlayers(direct), pass.recovered);
    PublishedPlayers(request, result);
  }

  lemma NobodyKnownDirectly()
    ensures KnownPlayers(None) == [] && RealIds([]) == {} && Privates([]) == []
    ensures Merge([], []) == []
  {
  }

  /** Without a direct response the recovered rows are all public. */
  lemma RecoveredArePublic(matchId: nat, entries: seq<nat>, e: Evidence, c: Caches)
    requires OwnHistories(e, c, matchId)
    ensures Privates(RunFullPass(matchId, None, entries, e, c).recovered) == []
  {
    hide RunFullPass, Filter, MissingIds, OwnHistories, KnownPlayers, Anchors;
    NobodyKnownDirectly();
    MissingMembers(None, entries);
    var recovered := RunFullPass(matchId, None, entries, e, c).recovered;
    forall p | p in recovered
      ensures !UsablePrivate(p)
    {
      RecoveredAreAnchors(matchId, None, entries, e, c, p);
    }
    FilterNone(recovered, UsablePrivate);
  }

  /**
   * Without a direct response a completed match has as many players as the roster names distinct
   * ids: ten exactly when the roster answer did.
   */
  lemma NoDirectCompletionExactly(request: Request, e: Evidence, c: Caches)
    requires CleanEvidence(e, c) && OwnHistories(e, c, request.matchId)
    requires ResolveRanked(request, None, e, c).status == CompleteRecovered
    ensures var players := ResolveRanked(request, None, e, c).result.value.players;
            && e.roster.RosterIds?
            && PublicIds(players) == Anchors(e.roster.entries)
            && |players| == |Anchors(e.roster.entries)|
            && (|players| == ROSTER_SIZE <==> |Anchors(e.roster.entries)| == ROSTER_SIZE)
  {
    hide PreflightHolds, NoAnchors, Unresolved, RunFullPass, Merge, Filter, Arrange, Positive, KnownPlayers,
         PublicIds, CleanEvidence, OwnHistories, ShellOf, OrElseShell, Anchors, RealIds, ResolveRanked;
    NobodyKnownDirectly();
    if PreflightHolds(None, e) {
      PreflightNeedsShell(None, e);
    }
    CompletedRosterExactly(request, None, e, c);
    NoDirectSize(request, e, c);
  }

  lemma NoDirectSize(request: Request, e: Evidence, c: Caches)
    requires !PreflightHolds(None, e) && e.roster.RosterIds?
    requires CleanEvidence(e, c) && OwnHistories(e, c, request.matchId)
    requires ResolveRanked(request, None, e, c).status == CompleteRecovered
    ensures var players := ResolveRanked(request, None, e, c).result.value.players;
            |players| == |PublicIds(players)|
  {
    hide PreflightHolds, NoAnchors, Unresolved, RunFullPass, Merge, Filter, Arrange, Positive, KnownPlayers,
         PublicIds, CleanEvidence, OwnHistories, ShellOf, OrElseShell, RealIds;
    NobodyKnownDirectly();
    var entries := e.roster.entries;
    if !ReachesAnchors(None, e) {
      EarlyExitNeverCompletes(request, None, e, c);
    }
    PendingExactly(request, None, e, c);
    var pass := RunFullPass(request.matchId, None, entries, e, c);
    var result := RecoveredMatchResult(None, Conclude(None, entries, pass)).value;
    assert Recover(request.matchId, None, e, c).result == Conclude(None, entries, pass);
    MergeInventsNothing([], pass.recovered);
    PublishedPlayers(request, result);
    MergeRoster([], pass.recovered);
    RecoveredArePublic(request.matchId, entries, e, c);
  }
}
