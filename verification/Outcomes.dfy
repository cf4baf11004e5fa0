/**
 * What every ranked recovery guarantees: exactness of the local preflight, exact cost,
 * and exactly which evidence leads to which outcome.
 */
module Outcomes {
  import opened Seqs
  import opened RelayPlayers
  import opened CanonicalOrder
  import opened HistoryCaches
  import opened Recovery
  import opened Resolution

  // --------------------------------------------------------------- rows kept by the readers

  lemma FirstByIdSnoc(rows: seq<Player>, p: Player, excluded: set<nat>)
    ensures var kept := FirstById(rows, excluded);
            FirstById(rows + [p], excluded)
            == if p.id > 0 && p.id !in excluded && p.id !in Ids(kept) then kept + [p] else kept
  {
    assert (rows + [p])[..|rows|] == rows;
  }

  lemma RealIdsSnoc(rows: seq<Player>, p: Player)
    ensures RealIds(rows + [p]) == RealIds(rows) + if p.id > 0 then {p.id} else {}
  {
  }

  lemma DistinctSnoc(rows: seq<Player>, p: Player)
    requires DistinctIds(rows) && p.id !in Ids(rows)
    ensures DistinctIds(rows + [p])
  {
  }

  lemma {:induction false} FirstByIdExact(rows: seq<Player>, excluded: set<nat>)
    ensures Ids(FirstById(rows, excluded)) == RealIds(rows) - excluded
    ensures DistinctIds(FirstById(rows, excluded))
    ensures forall p :: p in FirstById(rows, excluded) ==> p in rows && p.id > 0
  {
    if rows == [] {
    } else {
      hide FirstById, Ids, RealIds, DistinctIds;
      var init, last := rows[..|rows| - 1], rows[|rows| - 1];
      var kept := FirstById(init, excluded);
      FirstByIdExact(init, excluded);
      Snoc(rows);
      FirstByIdSnoc(init, last, excluded);
      RealIdsSnoc(init, last);
      IdsSnoc(kept, last);
      if last.id > 0 && last.id !in excluded && last.id !in Ids(kept) {
        DistinctSnoc(kept, last);
      }
    }
  }

  lemma IdsConcat(a: seq<Player>, b: seq<Player>)
    ensures Ids(a + b) == Ids(a) + Ids(b)
  {
    forall p | p in a ensures p in a + b {}
    forall p | p in b ensures p in a + b {}
  }

  lemma DistinctConcat(a: seq<Player>, b: seq<Player>)
    requires DistinctIds(a) && DistinctIds(b) && Ids(a) !! Ids(b)
    ensures DistinctIds(a + b)
  {
    forall i, j | 0 <= i < j < |a + b| ensures (a + b)[i].id != (a + b)[j].id {
      if i < |a| && j >= |a| {
        assert a[i].id in Ids(a) && b[j - |a|].id in Ids(b);
      }
    }
  }

  /** Usable rows: their public ids are all their real ids. */
  lemma UsableIds(rows: seq<Player>)
    requires forall p :: p in rows ==> !p.sentinel
    ensures PublicIds(rows) == RealIds(rows)
  {
    FilterMembers(rows, UsablePublic);
    forall p | p in rows && p.id > 0 ensures p.id in PublicIds(rows) {
      assert p in Publics(rows);
    }
  }

  lemma KnownAreUsable(direct: Option<DirectMatch>)
    ensures forall p :: p in KnownPlayers(direct) ==> !p.sentinel
    ensures PublicIds(KnownPlayers(direct)) == RealIds(KnownPlayers(direct))
  {
    if direct.Some? {
      FilterMembers(Unscored(direct.value.players), Usable);
    }
    UsableIds(KnownPlayers(direct));
  }

  // ------------------------------------------------------------------------- preflight

  lemma PartsExact(known: seq<Player>, e: Evidence)
    ensures var p := Parts(known, e);
            && p.known !! Ids(p.recovered) !! Ids(p.history) !! Ids(p.buffered)
            && DistinctIds(p.Rows())
            && Ids(p.Rows()) == Ids(p.recovered) + Ids(p.history) + Ids(p.buffered)
            && |p.Rows()| == |p.recovered| + |p.history| + |p.buffered|
            && (forall q :: q in p.Rows() ==> q.id > 0)
  {
    hide FirstById, DistinctIds, Ids, RealIds;
    var p := Parts(known, e);
    FirstByIdExact(Stored(e.preRecovered), p.known);
    FirstByIdExact(e.preHistory, p.known + Ids(p.recovered));
    FirstByIdExact(e.preBuffered, p.known + Ids(p.recovered) + Ids(p.history));
    IdsConcat(p.recovered, p.history);
    IdsConcat(p.recovered + p.history, p.buffered);
    DistinctConcat(p.recovered, p.history);
    DistinctConcat(p.recovered + p.history, p.buffered);
  }

  lemma FourDisjoint(a: set<nat>, b: set<nat>, c: set<nat>, d: set<nat>)
    requires a !! b !! c !! d
    ensures |a + b + c + d| == |a| + |b| + |c| + |d|
  {
  }

  /**
   * When the preflight answers, its four sources are pairwise disjoint, their union is
   * exactly ten ids, nothing was asked of the vendor and no cache moved.
   */
  lemma PreflightExact(matchId: nat, direct: Option<DirectMatch>, e: Evidence, c: Caches)
    requires PreflightHolds(direct, e)
    ensures var p := Parts(KnownPlayers(direct), e);
            && p.known !! Ids(p.recovered) !! Ids(p.history) !! Ids(p.buffered)
            && |p.known + Ids(p.recovered) + Ids(p.history) + Ids(p.buffered)| == ROSTER_SIZE
    ensures var run := Recover(matchId, direct, e, c);
            run.result.calls == 0 && run.fetched == [] && run.caches == c
    ensures forall roster, vendor ::
              Recover(matchId, direct, e.(roster := roster, vendor := vendor), c) == Recover(matchId, direct, e, c)
  {
    hide FirstById, Filter, Ids, RealIds, DistinctIds, PreflightScore;
    var p := Parts(KnownPlayers(direct), e);
    PartsExact(KnownPlayers(direct), e);
    SplitIds(p);
    FourDisjoint(p.known, Ids(p.recovered), Ids(p.history), Ids(p.buffered));
    forall roster, vendor
      ensures Recover(matchId, direct, e.(roster := roster, vendor := vendor), c) == Recover(matchId, direct, e, c)
    {
      VendorUnread(direct, e, roster, vendor);
    }
  }

  lemma VendorUnread(direct: Option<DirectMatch>, e: Evidence, roster: Roster, vendor: nat -> VendorHistory)
    ensures PreflightHolds(direct, e.(roster := roster, vendor := vendor)) == PreflightHolds(direct, e)
    ensures Preflight(direct, e.(roster := roster, vendor := vendor)) == Preflight(direct, e)
  {
  }

  lemma SplitIds(p: PreflightParts)
    requires DistinctIds(p.Rows())
    ensures |Ids(p.recovered)| == |p.recovered|
    ensures |Ids(p.history)| == |p.history|
    ensures |Ids(p.buffered)| == |p.buffered|
  {
    var rows := p.Rows();
    forall i, j | 0 <= i < j < |p.recovered| ensures p.recovered[i].id != p.recovered[j].id {
      assert rows[i] == p.recovered[i] && rows[j] == p.recovered[j];
    }
    var h := |p.recovered|;
    forall i, j | 0 <= i < j < |p.history| ensures p.history[i].id != p.history[j].id {
      assert rows[h + i] == p.history[i] && rows[h + j] == p.history[j];
    }
    var b := |p.recovered| + |p.history|;
    forall i, j | 0 <= i < j < |p.buffered| ensures p.buffered[i].id != p.buffered[j].id {
      assert rows[b + i] == p.buffered[i] && rows[b + j] == p.buffered[j];
    }
    DistinctIdsSize(p.recovered);
    DistinctIdsSize(p.history);
    DistinctIdsSize(p.buffered);
  }

  ghost predicate CleanRows(rows: seq<Player>) {
    forall p :: p in rows ==> !p.sentinel
  }

  /** Preflight rows cover their ids unless one of them is a sentinel, which then costs a place. */
  lemma PublicShare(rows: seq<Player>)
    requires DistinctIds(rows) && forall p :: p in rows ==> p.id > 0
    ensures Privates(rows) == []
    ensures PublicIds(rows) <= Ids(rows)
    ensures PublicIds(rows) == Ids(rows) <==> CleanRows(rows)
  {
    FilterMembers(rows, UsablePublic);
    FilterMembers(rows, UsablePrivate);
    FilterNone(rows, UsablePrivate);
    if CleanRows(rows) {
      UsableIds(rows);
    } else {
      var bad :| bad in rows && bad.sentinel;
      assert bad.id in Ids(rows);
      var i :| 0 <= i < |rows| && rows[i] == bad;
      forall p | p in Publics(rows) ensures p.id != bad.id {
        var j :| 0 <= j < |rows| && rows[j] == p;
      }
    }
  }

  /** Ten ids exactly when no preflight row is a sentinel, fewer otherwise. */
  lemma PreflightRoster(direct: Option<DirectMatch>, e: Evidence)
    requires PreflightHolds(direct, e)
    ensures var p := Parts(KnownPlayers(direct), e);
            var players := Merge(KnownPlayers(direct), p.Rows());
            && Privates(players) == []
            && PublicIds(players) <= p.known + Ids(p.Rows())
            && (CleanRows(p.Rows()) ==> |players| == ROSTER_SIZE && PublicIds(players) == p.known + Ids(p.Rows()))
            && (!CleanRows(p.Rows()) ==> |players| < ROSTER_SIZE)
  {
    var known := KnownPlayers(direct);
    var p := Parts(known, e);
    hide Merge, FirstById, Filter, Ids, RealIds, PublicIds, DistinctIds;
    PartsExact(known, e);
    KnownAreUsable(direct);
    PublicShare(p.Rows());
    MergeRoster(known, p.Rows());
    DistinctIdsSize(p.Rows());
    assert p.known == RealIds(known);
    assert |p.known + Ids(p.Rows())| == |p.known| + |Ids(p.Rows())|;
    if !CleanRows(p.Rows()) {
      SubsetSize(PublicIds(p.Rows()), Ids(p.Rows()));
      assert |p.known + PublicIds(p.Rows())| <= |p.known| + |PublicIds(p.Rows())|;
    }
  }

  /** The players a match result publishes are its players, rearranged. */
  lemma PublishedPlayers(request: Request, r: MatchResult)
    requires CleanRows(r.players)
    ensures var out := Terminalize(request, Some(r)).result.value.players;
            && multiset(out) == multiset(r.players)
            && |out| == |r.players|
            && (forall p :: p in out <==> p in r.players)
            && PublicIds(out) == PublicIds(r.players)
  {
    hide Arrange;
    FilterAll(r.players);
    ArrangeSortsAndPermutes(r.players);
    ArrangeMembers(r.players);
    UsableIds(r.players);
    UsableIds(Arrange(r.players));
  }

  lemma FilterAll(rows: seq<Player>)
    requires CleanRows(rows)
    ensures Filter(rows, Usable) == rows
  {
    if rows == [] {
    } else {
      assert rows[|rows| - 1] in rows;
      FilterAll(rows[..|rows| - 1]);
    }
  }

  /** The preflight completes the match with exactly its ten ids, unless a sentinel row spoils one. */
  lemma PreflightOutcome(request: Request, direct: Option<DirectMatch>, e: Evidence, c: Caches)
    requires PreflightHolds(direct, e) && NeedsRecovery(direct.value)
    ensures var p := Parts(KnownPlayers(direct), e);
            var out := ResolveRanked(request, direct, e, c);
            && (CleanRows(p.Rows()) ==>
                  && out.status == CompleteRecovered
                  && out.result.value.calls == 0
                  && |out.result.value.players| == ROSTER_SIZE
                  && PublicIds(out.result.value.players)
                     == p.known + Ids(p.recovered) + Ids(p.history) + Ids(p.buffered))
            && (!CleanRows(p.Rows()) ==> out.status == Dropped)
  {
    hide Merge, FirstById, Filter, Ids, PublicIds, DistinctIds, Arrange, PreflightHolds, RealIds, PreflightScore;
    var p := Parts(KnownPlayers(direct), e);
    PartsExact(KnownPlayers(direct), e);
    PreflightRoster(direct, e);
    MergeInventsNothing(KnownPlayers(direct), p.Rows());
    var result := RecoveredMatchResult(direct, Preflight(direct, e));
    assert direct.Some? by { PreflightNeedsShell(direct, e); }
    if CleanRows(p.Rows()) {
      PublishedPlayers(request, result.value);
    }
  }

  lemma PreflightNeedsShell(direct: Option<DirectMatch>, e: Evidence)
    requires PreflightHolds(direct, e)
    ensures direct.Some?
  {
  }
}
